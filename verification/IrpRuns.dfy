// Every run of the request queues: a request that the driver was given is at all times in
// exactly one place, and is completed once.

module IrpRuns {
  import opened Basics
  import opened IrpQueues
  import opened IrpCounting

  predicate Fresh(s: State, addr: nat) {
    addr != 0 && Count(s, At(addr)) == 0
  }

  predicate Enabled(s: State, t: nat, a: Action) {
    t < |s.threads| &&
    var pc := s.threads[t];
    match a
    case ClientCall(irp, addr, _) => pc.Idle? && ClientKind(irp.call) && irp !in s.issued && Fresh(s, addr)
    case Accept => pc.Accepting?
    case Reserve(_) => pc.Sending? && pc.server.irp.call.Exchange? && !pc.server.mapped
    case Transfer(_) => pc.Sending? && ClientKind(pc.client.irp.call) && pc.server.mapped
    case ExchangeCall(irp, _) => pc.Idle? && s.server && irp.call.Exchange? && irp !in s.issued
    case ReadTag(_) => pc.Tagged?
    case Respond(r, _) => pc.Responding? && |r.payload| + HEADER_SIZE == pc.size
    case Take(addr, _) => pc.Taking? && Fresh(s, addr)
    case Return => pc.Returning?
    case LockCall(irp, addr, _, _) => pc.Idle? && s.server && irp.call.Lock? && irp !in s.issued && Fresh(s, addr)
    case QueueLock => pc.Queueing?
    case Disconnect => pc.Idle?
    case CancelAll => pc.Cancelling?
  }

  function Next(s: State, t: nat, a: Action): State
    requires Enabled(s, t, a)
  {
    match a
    case ClientCall(irp, addr, pool) => DoClientCall(s, t, irp, addr, pool)
    case Accept => DoAccept(s, t)
    case Reserve(mapOk) => DoReserve(s, t, mapOk)
    case Transfer(mapOk) => DoTransfer(s, t, mapOk)
    case ExchangeCall(irp, mapOk) => DoExchangeCall(s, t, irp, mapOk)
    case ReadTag(tag) => DoReadTag(s, t, tag)
    case Respond(r, mapOk) => DoRespond(s, t, r, mapOk)
    case Take(addr, pool) => DoTake(s, t, addr, pool)
    case Return => DoReturn(s, t)
    case LockCall(irp, addr, mapOk, pool) => DoLockCall(s, t, irp, addr, mapOk, pool)
    case QueueLock => DoQueueLock(s, t)
    case Disconnect => Move(s, t, Cancelling).(server := false)
    case CancelAll => DoCancelAll(s, t)
  }

  function Init(n: nat): State {
    State(true, [], [], [], [], seq(n, _ => Idle), [], {}, [], [])
  }

  // What kind of item is where. No item in a queue holds a memory buffer, so completing
  // one never has to take the queue lock again.
  predicate ClientItem(item: Item) {
    ClientKind(item.irp.call) && item.memory == NoMemory && !item.mapped
  }

  predicate ServerItem(item: Item) {
    item.irp.call.Exchange? && item.memory == NoMemory && !item.mapped
  }

  predicate LockItem(item: Item) {
    item.irp.call.Lock? && item.memory == NoMemory && item.mapped
  }

  predicate MemoryOk(m: Memory) {
    m.Memory? ==> m.irp.call.Lock?
  }

  predicate HandOk(pc: Pc) {
    match pc
    case Idle => true
    case Accepting(client) => ClientItem(client)
    case Sending(client, server) =>
      && ClientItem(client) && server.irp.call.Exchange? && MemoryOk(server.memory)
      && (!server.mapped ==> server.memory == NoMemory)
    case Tagged(irp, memory, _) => irp.call.Exchange? && MemoryOk(memory)
    case Responding(irp, memory, _, answered) =>
      irp.call.Exchange? && MemoryOk(memory) && (answered.Some? ==> ClientItem(answered.value))
    case Taking(irp, memory, _) => irp.call.Exchange? && MemoryOk(memory)
    case Returning(memory, last) =>
      && memory.Memory? && MemoryOk(memory)
      && (last == [] || (|last| == 1 && last[0].irp.call.Exchange?))
    case Queueing(item) => LockItem(item)
    case Cancelling => true
  }

  predicate Typed(s: State) {
    && (forall i :: 0 <= i < |s.received| ==> ClientItem(s.received[i]))
    && (forall i :: 0 <= i < |s.sent| ==> ClientItem(s.sent[i]))
    && (forall i :: 0 <= i < |s.requests| ==> ServerItem(s.requests[i]))
    && (forall i :: 0 <= i < |s.memories| ==> LockItem(s.memories[i]))
    && (forall t :: 0 <= t < |s.threads| ==> HandOk(s.threads[t]))
  }

  ghost predicate Conserved(s: State) {
    && (forall x: Irp :: Count(s, Of(x)) == Bit(x in s.issued))
    && (forall addr: nat :: Count(s, At(addr)) <= Bit(addr != 0))
  }

  ghost predicate Inv(s: State) {
    Typed(s) && Conserved(s)
  }

  lemma TypedClientCall(s: State, t: nat, irp: Irp, addr: nat, pool: bool)
    requires Typed(s) && Enabled(s, t, ClientCall(irp, addr, pool))
    ensures Typed(DoClientCall(s, t, irp, addr, pool))
  {
    assert HandOk(s.threads[t]);
  }

  lemma TypedAccept(s: State, t: nat)
    requires Typed(s) && Enabled(s, t, Accept)
    ensures Typed(DoAccept(s, t))
  {
    assert HandOk(s.threads[t]);
  }

  lemma TypedReserve(s: State, t: nat, mapOk: bool)
    requires Typed(s) && Enabled(s, t, Action.Reserve(mapOk))
    ensures Typed(DoReserve(s, t, mapOk))
  {
    assert HandOk(s.threads[t]);
  }

  lemma TypedCompletion(s: State, t: nat, item: Item, c: Completion)
    requires Typed(s) && t < |s.threads| && item.irp.call.Exchange? && MemoryOk(item.memory) && c.irp == item.irp
    ensures Typed(CompleteServer(s, t, item, c))
  {
    hide ClientItem, ServerItem, LockItem;
  }

  lemma TypedClient(s: State, client: Item, irps: seq<Irp>, d: seq<Completion>)
    requires Typed(s) && ClientItem(client)
    ensures Typed(s.(received := [client] + s.received)) && Typed(s.(sent := s.sent + [client], left := irps))
    ensures Typed(s.(done := d, left := irps))
  {
    hide ClientItem, ServerItem, LockItem, HandOk;
  }

  lemma TypedTransfer(s: State, t: nat, mapOk: bool)
    requires Typed(s) && Enabled(s, t, Transfer(mapOk))
    ensures Typed(DoTransfer(s, t, mapOk))
  {
    hide Typed, Fresh, Need, RequestLength, CompleteServer, ClientKind;
    HandTyped(s, t);
    var client, server := s.threads[t].client, s.threads[t].server;
    TypedClient(s, client, s.left + [client.irp], s.done + [Fail(client.irp, NoResources)]);
    if server.size < Need(client.irp.call) {
      TypedCompletion(s.(received := [client] + s.received), t, server, Fail(server.irp, TooSmall));
    } else if client.irp.call.Write? && client.irp.call.data != [] && !mapOk {
      var s1 := s.(done := s.done + [Fail(client.irp, NoResources)], left := s.left + [client.irp]);
      TypedCompletion(s1, t, server, Fail(server.irp, NoResources));
    } else {
      var s1 := s.(sent := s.sent + [client], left := s.left + [client.irp]);
      TypedCompletion(s1, t, server, Completion(server.irp, Success, RequestLength(client.irp.call), Request(client.addr, client.irp)));
    }
  }

  lemma TypedExchangeCall(s: State, t: nat, irp: Irp, mapOk: bool)
    requires Typed(s) && Enabled(s, t, ExchangeCall(irp, mapOk))
    ensures Typed(DoExchangeCall(s, t, irp, mapOk))
  {
    assert HandOk(s.threads[t]);
  }

  lemma TypedReadTag(s: State, t: nat, tag: nat)
    requires Typed(s) && Enabled(s, t, ReadTag(tag))
    ensures Typed(DoReadTag(s, t, tag))
  {
    assert HandOk(s.threads[t]);
  }

  lemma TypedRespond(s: State, t: nat, r: Response, mapOk: bool)
    requires Typed(s) && Enabled(s, t, Respond(r, mapOk))
    ensures Typed(DoRespond(s, t, r, mapOk))
  {
    assert HandOk(s.threads[t]);
  }

  lemma TypedTake(s: State, t: nat, addr: nat, pool: bool)
    requires Typed(s) && Enabled(s, t, Take(addr, pool))
    ensures Typed(DoTake(s, t, addr, pool))
  {
    hide ClientKind;
    assert HandOk(s.threads[t]);
  }

  lemma TypedReturn(s: State, t: nat)
    requires Typed(s) && Enabled(s, t, Action.Return)
    ensures Typed(DoReturn(s, t))
  {
    assert HandOk(s.threads[t]);
  }

  lemma TypedLockCall(s: State, t: nat, irp: Irp, addr: nat, mapOk: bool, pool: bool)
    requires Typed(s) && Enabled(s, t, LockCall(irp, addr, mapOk, pool))
    ensures Typed(DoLockCall(s, t, irp, addr, mapOk, pool))
  {
    assert HandOk(s.threads[t]);
  }

  lemma TypedQueueLock(s: State, t: nat)
    requires Typed(s) && Enabled(s, t, QueueLock)
    ensures Typed(DoQueueLock(s, t))
  {
    assert HandOk(s.threads[t]);
  }

  lemma TypedDisconnect(s: State, t: nat)
    requires Typed(s) && Enabled(s, t, Disconnect)
    ensures Typed(Next(s, t, Disconnect))
  {
  }

  lemma TypedCancelAll(s: State, t: nat)
    requires Typed(s) && Enabled(s, t, CancelAll)
    ensures Typed(DoCancelAll(s, t))
  {
  }

  lemma TypedPreserved(s: State, t: nat, a: Action)
    requires Typed(s) && Enabled(s, t, a)
    ensures Typed(Next(s, t, a))
  {
    hide Typed, Fresh, DoClientCall, DoAccept, DoReserve, DoTransfer, DoExchangeCall, DoReadTag, DoRespond, DoTake, DoReturn, DoLockCall, DoQueueLock;
    match a
    case ClientCall(irp, addr, pool) => TypedClientCall(s, t, irp, addr, pool);
    case Accept => TypedAccept(s, t);
    case Reserve(mapOk) => TypedReserve(s, t, mapOk);
    case Transfer(mapOk) => TypedTransfer(s, t, mapOk);
    case ExchangeCall(irp, mapOk) => TypedExchangeCall(s, t, irp, mapOk);
    case ReadTag(tag) => TypedReadTag(s, t, tag);
    case Respond(r, mapOk) => TypedRespond(s, t, r, mapOk);
    case Take(addr, pool) => TypedTake(s, t, addr, pool);
    case Return => TypedReturn(s, t);
    case LockCall(irp, addr, mapOk, pool) => TypedLockCall(s, t, irp, addr, mapOk, pool);
    case QueueLock => TypedQueueLock(s, t);
    case Disconnect => TypedDisconnect(s, t);
    case CancelAll => TypedCancelAll(s, t);
  }

  // How a step changes the count of a token: one more for a request that comes in, at
  // most one more for an address that is allocated.
  predicate Balanced(s: State, s': State, x: Token, addr: nat) {
    && (x.Of? ==> Count(s', x) == Count(s, x) + Bit(x.irp in s'.issued) - Bit(x.irp in s.issued))
    && (x.At? ==> Count(s', x) <= Count(s, x) + Bit(x.addr == addr && addr != 0))
  }

  lemma HandTyped(s: State, t: nat)
    requires Typed(s) && t < |s.threads|
    ensures HandOk(s.threads[t])
  {
  }

  lemma BalancedClientCall(s: State, t: nat, irp: Irp, addr: nat, pool: bool, x: Token)
    requires Enabled(s, t, ClientCall(irp, addr, pool))
    ensures Balanced(s, DoClientCall(s, t, irp, addr, pool), x, addr)
  {
    hide Count, ClientKind, QueueCount;
    var s' := DoClientCall(s, t, irp, addr, pool);
    var status := if s.server then NoResources else NotExist;
    DoneOne(Fail(irp, status), x);
    StepCount(s, s', t, if s.server && pool then [] else [Fail(irp, status)], x);
  }

  lemma BalancedAccept(s: State, t: nat, x: Token)
    requires Typed(s) && Enabled(s, t, Accept)
    ensures Balanced(s, DoAccept(s, t), x, 0)
  {
    hide Typed, Fresh, Count;
    HandTyped(s, t);
    var s', client := DoAccept(s, t), s.threads[t].client;
    DoneOne(Fail(client.irp, NotExist), x);
    QueuePush(s.received, client, x);
    StepCount(s, s', t, if s.server then [] else [Fail(client.irp, NotExist)], x);
    if s.requests != [] {
      QueueHead(s.requests, x);
    }
  }

  lemma ReservedIn(s: State, irp: Irp, mapOk: bool)
    requires Typed(s) && irp.call.Exchange?
    ensures var r := Reserved(s.memories, irp, mapOk); r.Locked? ==> r.i < |s.memories| && LockItem(s.memories[r.i])
  {
    hide FindKey;
  }

  lemma BalancedReserve(s: State, t: nat, mapOk: bool, x: Token)
    requires Typed(s) && Enabled(s, t, Action.Reserve(mapOk))
    ensures Balanced(s, DoReserve(s, t, mapOk), x, 0)
  {
    hide Typed, Fresh, Count, QueueCount, Reserved, TakenSize, Taken, Rest;
    HandTyped(s, t);
    var s', client, server := DoReserve(s, t, mapOk), s.threads[t].client, s.threads[t].server;
    ReservedIn(s, server.irp, mapOk);
    var r := Reserved(s.memories, server.irp, mapOk);
    if r.Denied? {
      TwoDone(Fail(client.irp, r.status), Fail(server.irp, r.status), x);
      StepCount(s, s', t, [Fail(client.irp, r.status), Fail(server.irp, r.status)], x);
    } else {
      TakenCount(s.memories, r, x);
      StepCount(s, s', t, [], x);
    }
  }

  lemma BalancedTransfer(s: State, t: nat, mapOk: bool, x: Token)
    requires Typed(s) && Enabled(s, t, Transfer(mapOk))
    ensures Balanced(s, DoTransfer(s, t, mapOk), x, 0)
  {
    hide Typed, Fresh, Count, QueueCount, ClientKind, Need, CompleteServer, RequestLength;
    HandTyped(s, t);
    var client, server := s.threads[t].client, s.threads[t].server;
    if server.size < Need(client.irp.call) {
      var s1 := s.(received := [client] + s.received);
      QueuePush(s.received, client, x);
      StepCount(s, s1, t, [], x);
      CompleteServerCount(s1, t, server, Fail(server.irp, TooSmall), x);
    } else if client.irp.call.Write? && client.irp.call.data != [] && !mapOk {
      var s1 := s.(done := s.done + [Fail(client.irp, NoResources)], left := s.left + [client.irp]);
      DoneOne(Fail(client.irp, NoResources), x);
      StepCount(s, s1, t, [Fail(client.irp, NoResources)], x);
      CompleteServerCount(s1, t, server, Fail(server.irp, NoResources), x);
    } else {
      var s1 := s.(sent := s.sent + [client], left := s.left + [client.irp]);
      QueuePush(s.sent, client, x);
      StepCount(s, s1, t, [], x);
      var c := Completion(server.irp, Success, RequestLength(client.irp.call), Request(client.addr, client.irp));
      CompleteServerCount(s1, t, server, c, x);
    }
  }

  lemma BalancedExchangeCall(s: State, t: nat, irp: Irp, mapOk: bool, x: Token)
    requires Typed(s) && Enabled(s, t, ExchangeCall(irp, mapOk))
    ensures Balanced(s, DoExchangeCall(s, t, irp, mapOk), x, 0)
  {
    hide Typed, Fresh, Count, QueueCount, Reserved, TakenSize, Taken, Rest;
    ReservedIn(s, irp, mapOk);
    var s', r := DoExchangeCall(s, t, irp, mapOk), Reserved(s.memories, irp, mapOk);
    if 0 < irp.call.output < HEADER_SIZE || r.Denied? {
      var c := Fail(irp, if 0 < irp.call.output < HEADER_SIZE then TooSmall else r.status);
      DoneOne(c, x);
      StepCount(s, s', t, [c], x);
    } else {
      TakenCount(s.memories, r, x);
      StepCount(s, s', t, [], x);
    }
  }

  // A failed exchange: its completion, then its buffer.
  lemma FailedCount(s: State, t: nat, c: Completion, m: Memory, x: Token)
    requires t < |s.threads|
    ensures var s' := PutBack(s.(done := s.done + [c]), t, m, []);
            && s'.issued == s.issued
            && Count(s', x) + HandCount(s.threads[t], x) == Count(s, x) + IrpCount(c.irp, x) + MemoryCount(m, x)
  {
    hide Count, PutBack;
    DoneOne(c, x);
    LogCount(s, [c], x);
    PutBackCount(s.(done := s.done + [c]), t, m, [], x);
  }

  lemma BalancedReadTag(s: State, t: nat, tag: nat, x: Token)
    requires Typed(s) && Enabled(s, t, ReadTag(tag))
    ensures Balanced(s, DoReadTag(s, t, tag), x, 0)
  {
    hide Typed, Fresh, Count, QueueCount, PutBack, Find, Without;
    var s', pc, i := DoReadTag(s, t, tag), s.threads[t], Find(s.sent, tag);
    if tag != 0 && i == |s.sent| {
      FailedCount(s, t, Fail(pc.irp, Invalid), pc.memory, x);
    } else {
      StepCount(s, s', t, [], x);
      if tag != 0 {
        QueueWithout(s.sent, i, x);
      }
    }
  }

  // Every verdict completes the client request that the response is for, and only that.
  lemma JudgeCompletes(size: nat, answered: Option<Item>, r: Response, mapOk: bool, x: Token)
    requires |r.payload| + HEADER_SIZE == size
    ensures var done := Judge(size, answered, r, mapOk).client;
            && |done| == (if answered.Some? then 1 else 0)
            && (answered.Some? ==> done[0].irp == answered.value.irp)
            && DoneCount(done, x) == if answered.Some? then IrpCount(answered.value.irp, x) else 0
  {
    var done := Judge(size, answered, r, mapOk).client;
    if answered.Some? {
      assert done == [done[0]];
      DoneOne(done[0], x);
    }
  }

  lemma BalancedRespond(s: State, t: nat, r: Response, mapOk: bool, x: Token)
    requires Typed(s) && Enabled(s, t, Respond(r, mapOk))
    ensures Balanced(s, DoRespond(s, t, r, mapOk), x, 0)
  {
    hide Typed, Fresh, Count, QueueCount, DoneCount, PutBack, Judge;
    HandTyped(s, t);
    var pc := s.threads[t];
    var v := Judge(pc.size, pc.answered, r, mapOk);
    JudgeCompletes(pc.size, pc.answered, r, mapOk, x);
    var s1 := s.(done := s.done + v.client);
    LogCount(s, v.client, x);
    if v.Accepted? {
      MoveCount(s1, t, Taking(pc.irp, pc.memory, pc.size), x);
    } else {
      FailedCount(s1, t, Fail(pc.irp, if v.Unmapped? then NoResources else Invalid), pc.memory, x);
    }
  }

  lemma BalancedTake(s: State, t: nat, addr: nat, pool: bool, x: Token)
    requires Typed(s) && Enabled(s, t, Take(addr, pool))
    ensures Balanced(s, DoTake(s, t, addr, pool), x, addr)
  {
    hide Typed, Count, PutBack, Requeued;
    var s', pc := DoTake(s, t, addr, pool), s.threads[t];
    if !pool {
      FailedCount(s, t, Fail(pc.irp, NoResources), pc.memory, x);
    } else {
      StepCount(s, s', t, [], x);
      if s.received == [] {
        RequeuedCount(s.memories, pc.memory, x);
        QueuePush(s.requests, Item(addr, pc.irp, NoMemory, false, 0), x);
      } else {
        QueueHead(s.received, x);
      }
    }
  }

  lemma BalancedReturn(s: State, t: nat, x: Token)
    requires Typed(s) && Enabled(s, t, Action.Return)
    ensures Balanced(s, DoReturn(s, t), x, 0)
  {
    hide Typed, Fresh, Count, QueueCount, Requeued;
    var pc := s.threads[t];
    RequeuedCount(s.memories, pc.memory, x);
    StepCount(s, DoReturn(s, t), t, pc.last, x);
  }

  lemma BalancedLockCall(s: State, t: nat, irp: Irp, addr: nat, mapOk: bool, pool: bool, x: Token)
    requires Enabled(s, t, LockCall(irp, addr, mapOk, pool))
    ensures Balanced(s, DoLockCall(s, t, irp, addr, mapOk, pool), x, addr)
  {
    hide Count, QueueCount;
    var small, failed := irp.call.output < HEADER_SIZE, !mapOk || !pool;
    var c := Fail(irp, if small then TooSmall else NoResources);
    DoneOne(c, x);
    StepCount(s, DoLockCall(s, t, irp, addr, mapOk, pool), t, if small || failed then [c] else [], x);
  }

  lemma BalancedQueueLock(s: State, t: nat, x: Token)
    requires Enabled(s, t, QueueLock)
    ensures Balanced(s, DoQueueLock(s, t), x, 0)
  {
    hide Fresh, Count, QueueCount;
    QueuePush(s.memories, s.threads[t].item, x);
    StepCount(s, DoQueueLock(s, t), t, [], x);
  }

  lemma BalancedDisconnect(s: State, t: nat, x: Token)
    requires Enabled(s, t, Disconnect)
    ensures Balanced(s, Next(s, t, Disconnect), x, 0)
  {
    hide Fresh, Count, QueueCount;
    StepCount(s, Next(s, t, Disconnect), t, [], x);
  }

  // A disconnect completes every queued request, and each of them once.
  lemma CancelLogCount(s: State, x: Irp)
    requires Typed(s)
    ensures DoneCount(CancelLog(s), Of(x)) == QueuesCount(s, Of(x))
  {
    var a, b, c, d := CancelledQueue(s.requests), CancelledQueue(s.memories), NotExistQueue(s.received), NotExistQueue(s.sent);
    DoneAppend(c, d, Of(x));
    DoneAppend(b, c + d, Of(x));
    DoneAppend(a, b + (c + d), Of(x));
    CompletedQueue(s.requests, a, x);
    CompletedQueue(s.memories, b, x);
    CompletedQueue(s.received, c, x);
    CompletedQueue(s.sent, d, x);
  }

  lemma BalancedCancelAll(s: State, t: nat, x: Token)
    requires Typed(s) && Enabled(s, t, CancelAll)
    ensures Balanced(s, DoCancelAll(s, t), x, 0)
  {
    hide Typed, Fresh, Count, DoneCount, CancelLog;
    StepCount(s, DoCancelAll(s, t), t, CancelLog(s), x);
    if x.Of? {
      CancelLogCount(s, x.irp);
    } else {
      NoAddress(CancelLog(s), x);
    }
  }

  lemma {:induction false} NoAddress(d: seq<Completion>, x: Token)
    requires x.At?
    ensures DoneCount(d, x) == 0
  {
    if d != [] {
      NoAddress(d[1..], x);
    }
  }

  // The address that a step allocates, if it does.
  function NewAddress(a: Action): nat {
    match a
    case ClientCall(_, addr, _) => addr
    case Take(addr, _) => addr
    case LockCall(_, addr, _, _) => addr
    case _ => 0
  }

  lemma BalancedStep(s: State, t: nat, a: Action, x: Token)
    requires Typed(s) && Enabled(s, t, a)
    ensures Balanced(s, Next(s, t, a), x, NewAddress(a))
  {
    hide Typed, Fresh, Count, Balanced, DoClientCall, DoAccept, DoReserve, DoTransfer, DoExchangeCall, DoReadTag, DoRespond, DoTake,
      DoReturn, DoLockCall, DoQueueLock, DoCancelAll;
    match a
    case ClientCall(irp, addr, pool) => BalancedClientCall(s, t, irp, addr, pool, x);
    case Accept => BalancedAccept(s, t, x);
    case Reserve(mapOk) => BalancedReserve(s, t, mapOk, x);
    case Transfer(mapOk) => BalancedTransfer(s, t, mapOk, x);
    case ExchangeCall(irp, mapOk) => BalancedExchangeCall(s, t, irp, mapOk, x);
    case ReadTag(tag) => BalancedReadTag(s, t, tag, x);
    case Respond(r, mapOk) => BalancedRespond(s, t, r, mapOk, x);
    case Take(addr, pool) => BalancedTake(s, t, addr, pool, x);
    case Return => BalancedReturn(s, t, x);
    case LockCall(irp, addr, mapOk, pool) => BalancedLockCall(s, t, irp, addr, mapOk, pool, x);
    case QueueLock => BalancedQueueLock(s, t, x);
    case Disconnect => BalancedDisconnect(s, t, x);
    case CancelAll => BalancedCancelAll(s, t, x);
  }

  lemma NewIsFresh(s: State, t: nat, a: Action)
    requires Enabled(s, t, a)
    ensures NewAddress(a) != 0 ==> Count(s, At(NewAddress(a))) == 0
  {
    hide Count;
  }

  lemma InvPreserved(s: State, t: nat, a: Action)
    requires Inv(s) && Enabled(s, t, a)
    ensures Inv(Next(s, t, a))
  {
    hide Typed, Count, Next, Enabled;
    var s' := Next(s, t, a);
    TypedPreserved(s, t, a);
    NewIsFresh(s, t, a);
    forall x: Irp ensures Count(s', Of(x)) == Bit(x in s'.issued) {
      BalancedStep(s, t, a, Of(x));
    }
    forall addr: nat ensures Count(s', At(addr)) <= Bit(addr != 0) {
      BalancedStep(s, t, a, At(addr));
    }
  }

  lemma {:induction false} AllIdle(n: nat, x: Token)
    ensures HandsCount(seq(n, _ => Idle), x) == 0
  {
    if n > 0 {
      assert seq(n, _ => Idle)[1..] == seq(n - 1, _ => Idle);
      AllIdle(n - 1, x);
    }
  }

  lemma InitInv(n: nat)
    ensures Inv(Init(n))
  {
    forall x: Token ensures Count(Init(n), x) == 0 {
      AllIdle(n, x);
    }
  }
}
