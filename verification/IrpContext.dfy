// The open object of the driver as the code updates it in place. Each routine, run by one
// thread without interference, is a run of the steps of IrpQueues by that thread, and so it
// keeps the invariant of all runs.

module IrpContext {
  import opened Basics
  import opened Bytes
  import opened IrpQueues
  import opened IrpCounting
  import opened IrpRuns

  // Runs of thread 0 from a routine's start to its end.
  function SendRun(s: State, mapOk: bool): State
    requires |s.threads| == 1 && s.threads[0].Sending?
    requires ClientKind(s.threads[0].client.irp.call) && s.threads[0].server.irp.call.Exchange?
  {
    if s.threads[0].server.mapped then Settled(DoTransfer(s, 0, mapOk)) else ReserveRun(s, mapOk)
  }

  function ReserveRun(s: State, mapOk: bool): State
    requires |s.threads| == 1 && s.threads[0].Sending?
    requires ClientKind(s.threads[0].client.irp.call) && s.threads[0].server.irp.call.Exchange?
  {
    var s1 := ReserveStep(s, mapOk);
    if s1.threads[0].Sending? then Settled(DoTransfer(s1, 0, mapOk)) else s1
  }

  function ReserveStep(s: State, mapOk: bool): (s1: State)
    requires |s.threads| == 1 && s.threads[0].Sending? && s.threads[0].server.irp.call.Exchange?
    ensures |s1.threads| == 1 && (s1.threads[0].Sending? ==> s1.threads[0].client == s.threads[0].client)
  {
    DoReserve(s, 0, mapOk)
  }

  function Settled(s: State): State
    requires |s.threads| == 1
  {
    if s.threads[0].Returning? then DoReturn(s, 0) else s
  }

  function ClientRun(s: State, irp: Irp, addr: nat, pool: bool, mapOk: bool): State
    requires |s.threads| == 1 && s.threads[0].Idle? && ClientKind(irp.call)
    requires forall i :: 0 <= i < |s.requests| ==> s.requests[i].irp.call.Exchange?
  {
    var s1 := DoClientCall(s, 0, irp, addr, pool);
    if !s1.threads[0].Accepting? then s1 else
    var s2 := DoAccept(s1, 0);
    if s2.threads[0].Sending? then SendRun(s2, mapOk) else s2
  }

  function TakeRun(s: State, addr: nat, pool: bool, mapOk: bool): State
    requires |s.threads| == 1 && s.threads[0].Taking? && s.threads[0].irp.call.Exchange?
    requires ClientQueue(s.received)
  {
    var s1 := DoTake(s, 0, addr, pool);
    if s1.threads[0].Sending? then SendRun(s1, mapOk) else Settled(s1)
  }

  function AnswerRun(s: State, r: Response, addr: nat, pool: bool, mapOk: bool): State
    requires |s.threads| == 1 && s.threads[0].Responding? && s.threads[0].irp.call.Exchange?
    requires ClientQueue(s.received) && |r.payload| + HEADER_SIZE == s.threads[0].size
  {
    var s1 := DoRespond(s, 0, r, mapOk);
    if s1.threads[0].Taking? then TakeRun(s1, addr, pool, mapOk) else Settled(s1)
  }

  // The size of the buffer that an exchange gets, if it gets one.
  function BufferSize(s: State, irp: Irp, mapOk: bool): nat
    requires irp.call.Exchange?
  {
    TakenSize(s.memories, Reserved(s.memories, irp, mapOk))
  }

  function ServerRun(s: State, irp: Irp, tag: nat, r: Response, addr: nat, pool: bool, mapOk: bool): State
    requires |s.threads| == 1 && s.threads[0].Idle? && irp.call.Exchange? && ClientQueue(s.received)
    requires !Reserved(s.memories, irp, mapOk).Denied? ==> |r.payload| + HEADER_SIZE == BufferSize(s, irp, mapOk)
  {
    var s1 := ExchangeStep(s, irp, mapOk);
    if s1.threads[0].Tagged? then TagRun(s1, tag, r, addr, pool, mapOk) else s1
  }

  function TagRun(s: State, tag: nat, r: Response, addr: nat, pool: bool, mapOk: bool): State
    requires |s.threads| == 1 && s.threads[0].Tagged? && s.threads[0].irp.call.Exchange? && ClientQueue(s.received)
    requires |r.payload| + HEADER_SIZE == s.threads[0].size
  {
    var s1 := TagStep(s, tag);
    if s1.threads[0].Responding? then AnswerRun(s1, r, addr, pool, mapOk) else Settled(s1)
  }

  function ExchangeStep(s: State, irp: Irp, mapOk: bool): (s1: State)
    requires |s.threads| == 1 && s.threads[0].Idle? && irp.call.Exchange?
    ensures |s1.threads| == 1 && s1.received == s.received
    ensures s1.threads[0].Tagged? ==>
              s1.threads[0].irp == irp && s1.threads[0].size == BufferSize(s, irp, mapOk) && !Reserved(s.memories, irp, mapOk).Denied?
  {
    DoExchangeCall(s, 0, irp, mapOk)
  }

  function TagStep(s: State, tag: nat): (s1: State)
    requires |s.threads| == 1 && s.threads[0].Tagged?
    ensures |s1.threads| == 1 && s1.received == s.received
    ensures s1.threads[0].Responding? ==> s1.threads[0].irp == s.threads[0].irp && s1.threads[0].size == s.threads[0].size
  {
    DoReadTag(s, 0, tag)
  }

  function LockRun(s: State, irp: Irp, addr: nat, mapOk: bool, pool: bool): State
    requires |s.threads| == 1 && s.threads[0].Idle? && irp.call.Lock?
  {
    var s1 := DoLockCall(s, 0, irp, addr, mapOk, pool);
    if s1.threads[0].Queueing? then DoQueueLock(s1, 0) else s1
  }

  predicate ClientQueue(q: seq<Item>) {
    forall i :: 0 <= i < |q| ==> ClientKind(q[i].irp.call) && q[i].memory == NoMemory
  }

  class ObjectContext {
    var server: bool
    var received: seq<Item>
    var sent: seq<Item>
    var requests: seq<Item>
    var memories: seq<Item>
    var done: seq<Completion>
    ghost var issued: set<Irp>
    ghost var arrived: seq<Irp>
    ghost var left: seq<Irp>

    // The state with one thread, at pc.
    ghost function View(pc: Pc): State
      reads this
    {
      State(server, received, sent, requests, memories, [pc], done, issued, arrived, left)
    }

    constructor ()
      ensures View(Idle) == State(true, [], [], [], [], [Idle], [], {}, [], []) && Inv(View(Idle))
    {
      server, received, sent, requests, memories, done := true, [], [], [], [], [];
      issued, arrived, left := {}, [], [];
      new;
      InitInv(1);
      assert Init(1).threads == [Idle];
    }

    method CompleteIrp(c: Completion)
      modifies this`done
      ensures done == old(done) + [c]
    {
      done := done + [c];
    }

    // Searches the sent requests for the one at a tag, and takes it out.
    method GetSentClientRequest(tag: nat) returns (found: Option<Item>)
      modifies this`sent
      ensures var i := Find(old(sent), tag);
              if i == |old(sent)| then found == None && sent == old(sent)
              else found == Some(old(sent)[i]) && sent == Without(old(sent), i)
    {
      var i := 0;
      found := None;
      while i < |sent| && found == None
        modifies this`sent
        invariant i <= |sent|
        invariant found == None ==> sent == old(sent) && forall j :: 0 <= j < i ==> sent[j].addr != tag
        invariant found.Some? ==> i < |old(sent)| && i == Find(old(sent), tag)
        invariant found.Some? ==> found.value == old(sent)[i] && sent == Without(old(sent), i)
        decreases found == None, |sent| - i
      {
        if sent[i].addr == tag {
          FirstFound(sent, tag, i);
          found := Some(sent[i]);
          sent := sent[..i] + sent[i + 1..];
        } else {
          i := i + 1;
        }
      }
    }

    // The buffer for an exchange: its own, or a locked one with its key.
    method ReserveMemoryIrp(irp: Irp, mapOk: bool) returns (status: Status, memory: Memory, size: nat)
      requires irp.call.Exchange?
      modifies this`memories
      ensures var r := Reserved(old(memories), irp, mapOk);
              && status == (if r.Denied? then r.status else Success)
              && memory == Taken(old(memories), r) && size == TakenSize(old(memories), r)
              && memories == Rest(old(memories), r)
    {
      status, memory, size := Success, NoMemory, 0;
      if irp.call.output > 0 {
        if !mapOk {
          return NoResources, NoMemory, 0;
        }
        return Success, NoMemory, irp.call.output;
      }
      if irp.call.key == [] {
        return Invalid, NoMemory, 0;
      }
      var i := 0;
      while i < |memories| && !(memories[i].irp.call.Lock? && memories[i].irp.call.key == irp.call.key)
        invariant i <= |memories| && forall j :: 0 <= j < i ==> !HasKey(memories[j], irp.call.key)
      {
        i := i + 1;
      }
      FirstKey(memories, irp.call.key, i);
      if i == |memories| {
        return Invalid, NoMemory, 0;
      }
      memory, size := Memory(memories[i].addr, memories[i].irp), memories[i].irp.call.output;
      memories := memories[..i] + memories[i + 1..];
    }

    method QueueMemoryIrp(m: Memory)
      modifies this`memories
      ensures memories == if m.Memory? then old(memories) + [Item(m.addr, m.irp, NoMemory, true, 0)] else old(memories)
      ensures memories == Requeued(old(memories), m)
    {
      if m.Memory? {
        memories := memories + [Item(m.addr, m.irp, NoMemory, true, 0)];
      }
    }

    method CompleteIrpQueueItem(item: Item, c: Completion)
      requires c.irp == item.irp
      modifies this`memories, this`done
      ensures View(Idle) == Settled(CompleteServer(old(View(Idle)), 0, item, c))
    {
      if c.status == TooSmall && item.memory.Memory? {
        CompleteIrp(Completion(item.memory.irp, TooSmall, c.length, Nothing));
      } else if item.memory.Memory? {
        QueueMemoryIrp(item.memory);
      }
      CompleteIrp(c);
    }

    // An item that holds no buffer.
    method CompleteClient(item: Item, c: Completion)
      requires c.irp == item.irp && item.memory == NoMemory
      modifies this`memories, this`done
      ensures memories == old(memories) && done == old(done) + [c]
    {
      ghost var s := View(Idle);
      CompleteIrpQueueItem(item, c);
      assert View(Idle).done == s.done + [c];
    }

    method SendClientRequestToServer(client: Item, item: Item, mapOk: bool)
      requires ClientKind(client.irp.call) && item.irp.call.Exchange?
      requires client.memory == NoMemory && (!item.mapped ==> item.memory == NoMemory)
      modifies this
      ensures View(Idle) == SendRun(old(View(Sending(client, item))), mapOk)
    {
      hide DoTransfer, Settled, Taken, TakenSize, FindKey;
      ghost var s := View(Sending(client, item));
      var serverItem := item;
      if !item.mapped {
        var status, memory, size := ReserveMemoryIrp(item.irp, mapOk);
        if status != Success {
          CompleteClient(client, Fail(client.irp, status));
          CompleteClient(item, Fail(item.irp, status));
          left := left + [client.irp];
          assert done == s.done + [Fail(client.irp, status), Fail(item.irp, status)];
          assert View(Idle) == DoReserve(s, 0, mapOk);
          return;
        }
        serverItem := item.(memory := memory, mapped := true, size := size);
        assert View(Sending(client, serverItem)) == DoReserve(s, 0, mapOk);
      }
      TransferRequest(client, serverItem, mapOk);
    }

    method TransferRequest(client: Item, item: Item, mapOk: bool)
      requires ClientKind(client.irp.call) && item.irp.call.Exchange? && client.memory == NoMemory
      modifies this
      ensures View(Idle) == Settled(DoTransfer(old(View(Sending(client, item))), 0, mapOk))
    {
      hide Need, RequestLength, CompleteServer, Settled;
      ghost var pc := Sending(client, item);
      ghost var s := View(pc);
      if item.size < Need(client.irp.call) {
        received := [client] + received;
        SameThread(View(Idle), pc, item, Fail(item.irp, TooSmall));
        CompleteIrpQueueItem(item, Fail(item.irp, TooSmall));
      } else if client.irp.call.Write? && client.irp.call.data != [] && !mapOk {
        left := left + [client.irp];
        CompleteClient(client, Fail(client.irp, NoResources));
        SameThread(View(Idle), pc, item, Fail(item.irp, NoResources));
        CompleteIrpQueueItem(item, Fail(item.irp, NoResources));
      } else {
        left := left + [client.irp];
        sent := sent + [client];
        var c := Completion(item.irp, Success, RequestLength(client.irp.call), Request(client.addr, client.irp));
        SameThread(View(Idle), pc, item, c);
        CompleteIrpQueueItem(item, c);
      }
    }

    method DispatchClientRequest(irp: Irp, addr: nat, pool: bool, mapOk: bool)
      requires ClientKind(irp.call)
      requires forall i :: 0 <= i < |requests| ==> requests[i].irp.call.Exchange? && requests[i].memory == NoMemory
      modifies this
      ensures View(Idle) == ClientRun(old(View(Idle)), irp, addr, pool, mapOk)
      ensures old(Usable(View(Idle), irp, addr)) ==> Inv(View(Idle))
    {
      hide SendRun, Usable, Inv;
      ClientRunKeeps(View(Idle), irp, addr, pool, mapOk);
      issued := issued + {irp};
      if !server {
        CompleteIrp(Fail(irp, NotExist));
        return;
      }
      if !pool {
        CompleteIrp(Fail(irp, NoResources));
        return;
      }
      var client := Item(addr, irp, NoMemory, false, 0);
      arrived := arrived + [irp];
      if requests == [] {
        received := received + [client];
        return;
      }
      var item := requests[0];
      requests := requests[1..];
      assert View(Sending(client, item)) == DoAccept(DoClientCall(old(View(Idle)), 0, irp, addr, pool), 0);
      SendClientRequestToServer(client, item, mapOk);
    }

    method FailExchange(irp: Irp, status: Status, memory: Memory)
      modifies this`memories, this`done
      ensures memories == Requeued(old(memories), memory) && done == old(done) + [Fail(irp, status)]
    {
      CompleteIrp(Fail(irp, status));
      QueueMemoryIrp(memory);
    }

    // The rest of an exchange: the next client request, or the exchange waits for one.
    method TakeRequest(irp: Irp, memory: Memory, size: nat, addr: nat, pool: bool, mapOk: bool)
      requires irp.call.Exchange? && ClientQueue(received)
      modifies this
      ensures View(Idle) == TakeRun(old(View(Taking(irp, memory, size))), addr, pool, mapOk)
    {
      hide SendRun;
      ghost var s := View(Taking(irp, memory, size));
      if !pool {
        FailExchange(irp, NoResources, memory);
        Failed(s, irp, NoResources, memory);
        return;
      }
      if received == [] {
        QueueMemoryIrp(memory);
        requests := requests + [Item(addr, irp, NoMemory, false, 0)];
        return;
      }
      var client, item := received[0], Item(addr, irp, memory, true, size);
      received := received[1..];
      assert View(Sending(client, item)) == DoTake(s, 0, addr, pool);
      SendClientRequestToServer(client, item, mapOk);
    }

    // The response: it completes the client request that it is for.
    method Answer(irp: Irp, memory: Memory, size: nat, answered: Option<Item>, r: Response, addr: nat, pool: bool, mapOk: bool)
      requires irp.call.Exchange? && ClientQueue(received) && |r.payload| + HEADER_SIZE == size
      requires answered.Some? ==> answered.value.memory == NoMemory
      modifies this
      ensures View(Idle) == AnswerRun(old(View(Responding(irp, memory, size, answered))), r, addr, pool, mapOk)
    {
      hide Judge, TakeRun;
      ghost var s := View(Responding(irp, memory, size, answered));
      var v := Judge(size, answered, r, mapOk);
      OneCompletion(size, answered, r, mapOk);
      if answered.Some? {
        CompleteClient(answered.value, v.client[0]);
      }
      assert done == s.done + v.client;
      match v
      case Accepted(_) =>
        assert View(Taking(irp, memory, size)) == DoRespond(s, 0, r, mapOk);
        TakeRequest(irp, memory, size, addr, pool, mapOk);
      case Unmapped(_) =>
        FailExchange(irp, NoResources, memory);
        Failed(s.(done := s.done + v.client), irp, NoResources, memory);
      case Bad(_) =>
        FailExchange(irp, Invalid, memory);
        Failed(s.(done := s.done + v.client), irp, Invalid, memory);
    }

    // The client request that a tag stands for, and its response.
    method AnswerTag(irp: Irp, memory: Memory, size: nat, tag: nat, r: Response, addr: nat, pool: bool, mapOk: bool)
      requires irp.call.Exchange? && ClientQueue(received) && ClientQueue(sent) && |r.payload| + HEADER_SIZE == size
      modifies this
      ensures View(Idle) == TagRun(old(View(Tagged(irp, memory, size))), tag, r, addr, pool, mapOk)
    {
      hide AnswerRun, Find;
      ghost var s := View(Tagged(irp, memory, size));
      var answered := None;
      if tag != 0 {
        answered := GetSentClientRequest(tag);
        if answered == None {
          FailExchange(irp, Invalid, memory);
          Failed(s, irp, Invalid, memory);
          return;
        }
      }
      assert View(Responding(irp, memory, size, answered)) == TagStep(s, tag);
      Answer(irp, memory, size, answered, r, addr, pool, mapOk);
    }

    method DispatchServerIORequest(irp: Irp, tag: nat, r: Response, addr: nat, pool: bool, mapOk: bool)
      requires irp.call.Exchange? && ClientQueue(received) && ClientQueue(sent)
      requires !Reserved(memories, irp, mapOk).Denied? ==> |r.payload| + HEADER_SIZE == BufferSize(View(Idle), irp, mapOk)
      modifies this
      ensures View(Idle) == ServerRun(old(View(Idle)), irp, tag, r, addr, pool, mapOk)
      ensures old(Usable(View(Idle), irp, addr)) && old(server) ==> Inv(View(Idle))
    {
      hide TagRun, FindKey, Taken, TakenSize, Usable, Inv;
      ServerRunKeeps(View(Idle), irp, tag, r, addr, pool, mapOk);
      ghost var s := View(Idle);
      issued := issued + {irp};
      if 0 < irp.call.output < HEADER_SIZE {
        CompleteIrp(Fail(irp, TooSmall));
        return;
      }
      var status, memory, size := ReserveMemoryIrp(irp, mapOk);
      if status != Success {
        CompleteIrp(Fail(irp, status));
        return;
      }
      assert View(Tagged(irp, memory, size)) == ExchangeStep(s, irp, mapOk);
      AnswerTag(irp, memory, size, tag, r, addr, pool, mapOk);
    }

    method DispatchServerLockMemory(irp: Irp, addr: nat, mapOk: bool, pool: bool)
      requires irp.call.Lock?
      modifies this
      ensures View(Idle) == LockRun(old(View(Idle)), irp, addr, mapOk, pool)
      ensures old(Usable(View(Idle), irp, addr)) && old(server) ==> Inv(View(Idle))
    {
      hide Usable, Inv;
      LockRunKeeps(View(Idle), irp, addr, mapOk, pool);
      issued := issued + {irp};
      if irp.call.output < HEADER_SIZE {
        CompleteIrp(Fail(irp, TooSmall));
        return;
      }
      if !mapOk || !pool {
        CompleteIrp(Fail(irp, NoResources));
        return;
      }
      QueueMemoryIrp(Memory(addr, irp));
    }

    // A disconnect: the server's items with their notices, then the client requests.
    method CancelAll()
      modifies this
      ensures View(Idle) == DoCancelAll(old(View(Cancelling)).(server := false), 0)
      ensures old(Inv(View(Idle))) ==> Inv(View(Idle))
    {
      hide Inv;
      CancelKeeps(View(Idle));
      server := false;
      CancelServer();
      CancelClients();
    }

    method CancelServer()
      modifies this`requests, this`memories, this`done
      ensures requests == memories == []
      ensures done == old(done) + (CancelledQueue(old(requests)) + CancelledQueue(old(memories)))
    {
      ghost var q := requests + memories;
      while requests != [] || memories != []
        modifies this`requests, this`memories, this`done
        invariant |requests + memories| <= |q| && requests + memories == q[|q| - |requests + memories|..]
        invariant done == old(done) + CancelledQueue(q[..|q| - |requests + memories|])
        decreases |requests| + |memories|
      {
        ghost var k := |q| - |requests + memories|;
        assert (requests + memories)[0] == q[k] && q[k..][1..] == q[k + 1..];
        var item;
        if requests != [] {
          item, requests := requests[0], requests[1..];
        } else {
          item, memories := memories[0], memories[1..];
        }
        assert requests + memories == q[k + 1..];
        CancelledNext(q, k);
        CompleteIrp(if item.mapped then Completion(item.irp, Success, HEADER_SIZE, Close) else Fail(item.irp, NotExist));
      }
      assert q[..|q|] == q;
      CancelledBoth(old(requests), old(memories));
    }

    method CancelClients()
      modifies this`received, this`sent, this`done
      ensures received == sent == []
      ensures done == old(done) + (NotExistQueue(old(received)) + NotExistQueue(old(sent)))
    {
      while received != []
        modifies this`received, this`done
        invariant |received| <= |old(received)| && received == old(received)[|old(received)| - |received|..]
        invariant done == old(done) + NotExistQueue(old(received)[..|old(received)| - |received|])
        decreases |received|
      {
        NotExistNext(old(received), |old(received)| - |received|);
        CompleteIrp(Fail(received[0].irp, NotExist));
        received := received[1..];
      }
      ghost var mid := done;
      assert old(received)[..|old(received)|] == old(received);
      while sent != []
        modifies this`sent, this`done
        invariant |sent| <= |old(sent)| && sent == old(sent)[|old(sent)| - |sent|..]
        invariant done == mid + NotExistQueue(old(sent)[..|old(sent)| - |sent|])
        decreases |sent|
      {
        NotExistNext(old(sent), |old(sent)| - |sent|);
        CompleteIrp(Fail(sent[0].irp, NotExist));
        sent := sent[1..];
      }
      assert old(sent)[..|old(sent)|] == old(sent);
    }
  }

  lemma SameThread(s: State, pc: Pc, item: Item, c: Completion)
    requires |s.threads| == 1
    ensures CompleteServer(Move(s, 0, pc), 0, item, c) == CompleteServer(s, 0, item, c)
    ensures Move(s, 0, pc) == s.(threads := [pc])
  {
    assert s.threads[0 := pc] == [pc];
    var back := Returning(item.memory, [c]);
    assert [pc][0 := back] == s.threads[0 := back] && [pc][0 := Idle] == s.threads[0 := Idle];
  }

  // An exchange that fails is completed and gives its buffer back.
  lemma Failed(s: State, irp: Irp, status: Status, memory: Memory)
    requires |s.threads| == 1
    ensures Settled(PutBack(s.(done := s.done + [Fail(irp, status)]), 0, memory, []))
         == s.(memories := Requeued(s.memories, memory), done := s.done + [Fail(irp, status)], threads := [Idle])
  {
    assert s.threads[0 := Idle] == [Idle];
    assert s.threads[0 := Returning(memory, [])][0 := Idle] == [Idle];
  }

  lemma OneCompletion(size: nat, answered: Option<Item>, r: Response, mapOk: bool)
    requires |r.payload| + HEADER_SIZE == size
    ensures var c := Judge(size, answered, r, mapOk).client;
            if answered.Some? then |c| == 1 && c == [c[0]] && c[0].irp == answered.value.irp else c == []
  {
  }

  lemma FirstFound(q: seq<Item>, addr: nat, i: nat)
    requires i < |q| && q[i].addr == addr && forall j :: 0 <= j < i ==> q[j].addr != addr
    ensures Find(q, addr) == i
  {
    assert Find(q, addr) <= i || q[i].addr != addr;
  }

  lemma FirstKey(q: seq<Item>, key: seq<Byte>, i: nat)
    requires i <= |q| && (i < |q| ==> HasKey(q[i], key)) && forall j :: 0 <= j < i ==> !HasKey(q[j], key)
    ensures FindKey(q, key) == i
  {
    assert FindKey(q, key) < |q| ==> HasKey(q[FindKey(q, key)], key);
  }

  lemma CancelledNext(q: seq<Item>, k: nat)
    requires k < |q|
    ensures CancelledQueue(q[..k + 1]) == CancelledQueue(q[..k]) + [Cancelled(q[k])]
  {
  }

  lemma CancelledBoth(p: seq<Item>, q: seq<Item>)
    ensures CancelledQueue(p + q) == CancelledQueue(p) + CancelledQueue(q)
  {
  }

  lemma NotExistNext(q: seq<Item>, k: nat)
    requires k < |q|
    ensures NotExistQueue(q[..k + 1]) == NotExistQueue(q[..k]) + [Fail(q[k].irp, NotExist)]
  {
  }

  // A request that is new, at an address that is free.
  ghost predicate Usable(s: State, irp: Irp, addr: nat) {
    Inv(s) && irp !in s.issued && Fresh(s, addr)
  }

  lemma SettledKeeps(s: State)
    requires Inv(s) && |s.threads| == 1
    ensures Inv(Settled(s))
  {
    hide Inv, DoReturn;
    if s.threads[0].Returning? {
      InvPreserved(s, 0, Action.Return);
    }
  }

  lemma SendRunKeeps(s: State, mapOk: bool)
    requires Inv(s) && |s.threads| == 1 && s.threads[0].Sending?
    requires ClientKind(s.threads[0].client.irp.call) && s.threads[0].server.irp.call.Exchange?
    ensures Inv(SendRun(s, mapOk))
  {
    hide Inv, Fresh, DoTransfer, DoReserve, Settled, ClientKind;
    if s.threads[0].server.mapped {
      InvPreserved(s, 0, Transfer(mapOk));
      TransferThreads(s, mapOk);
      SettledKeeps(DoTransfer(s, 0, mapOk));
    } else {
      InvPreserved(s, 0, Action.Reserve(mapOk));
      ReserveMaps(s, mapOk);
      var s1 := DoReserve(s, 0, mapOk);
      if s1.threads[0].Sending? {
        InvPreserved(s1, 0, Transfer(mapOk));
        TransferThreads(s1, mapOk);
        SettledKeeps(DoTransfer(s1, 0, mapOk));
      }
    }
  }

  lemma TransferThreads(s: State, mapOk: bool)
    requires |s.threads| == 1 && s.threads[0].Sending? && ClientKind(s.threads[0].client.irp.call)
    ensures |DoTransfer(s, 0, mapOk).threads| == 1
  {
    hide Need, RequestLength, ClientKind;
  }

  lemma ReserveMaps(s: State, mapOk: bool)
    requires |s.threads| == 1 && s.threads[0].Sending? && s.threads[0].server.irp.call.Exchange?
    ensures var s1 := DoReserve(s, 0, mapOk);
            |s1.threads| == 1 && (s1.threads[0].Sending? ==> s1.threads[0].server.mapped && s1.threads[0].client == s.threads[0].client)
  {
    hide Reserved, Taken, TakenSize, Rest;
  }

  lemma ClientRunKeeps(s: State, irp: Irp, addr: nat, pool: bool, mapOk: bool)
    requires |s.threads| == 1 && s.threads[0].Idle? && ClientKind(irp.call)
    requires forall i :: 0 <= i < |s.requests| ==> s.requests[i].irp.call.Exchange?
    ensures Usable(s, irp, addr) ==> Inv(ClientRun(s, irp, addr, pool, mapOk))
  {
    hide Inv, Fresh, SendRun;
    if Usable(s, irp, addr) {
      InvPreserved(s, 0, ClientCall(irp, addr, pool));
      var s1 := DoClientCall(s, 0, irp, addr, pool);
      if s1.threads[0].Accepting? {
        InvPreserved(s1, 0, Accept);
        var s2 := DoAccept(s1, 0);
        if s2.threads[0].Sending? {
          SendRunKeeps(s2, mapOk);
        }
      }
    }
  }

  // An address stays free until a step allocates it.
  lemma StaysFresh(s: State, a: Action, addr: nat)
    requires Inv(s) && Enabled(s, 0, a) && Fresh(s, addr) && NewAddress(a) == 0
    ensures Fresh(Next(s, 0, a), addr)
  {
    hide Typed, Count, Enabled, Next;
    BalancedStep(s, 0, a, At(addr));
  }

  lemma TakeRunKeeps(s: State, addr: nat, pool: bool, mapOk: bool)
    requires Inv(s) && |s.threads| == 1 && s.threads[0].Taking? && s.threads[0].irp.call.Exchange?
    requires ClientQueue(s.received) && Fresh(s, addr)
    ensures Inv(TakeRun(s, addr, pool, mapOk))
  {
    hide Inv, Fresh, SendRun, Settled, Requeued;
    InvPreserved(s, 0, Take(addr, pool));
    var s1 := DoTake(s, 0, addr, pool);
    if s1.threads[0].Sending? {
      SendRunKeeps(s1, mapOk);
    } else {
      SettledKeeps(s1);
    }
  }

  lemma AnswerRunKeeps(s: State, r: Response, addr: nat, pool: bool, mapOk: bool)
    requires Inv(s) && |s.threads| == 1 && s.threads[0].Responding? && s.threads[0].irp.call.Exchange?
    requires ClientQueue(s.received) && |r.payload| + HEADER_SIZE == s.threads[0].size && Fresh(s, addr)
    ensures Inv(AnswerRun(s, r, addr, pool, mapOk))
  {
    hide Inv, Fresh, TakeRun, Settled, Judge;
    var a := Respond(r, mapOk);
    InvPreserved(s, 0, a);
    StaysFresh(s, a, addr);
    var s1 := DoRespond(s, 0, r, mapOk);
    if s1.threads[0].Taking? {
      TakeRunKeeps(s1, addr, pool, mapOk);
    } else {
      SettledKeeps(s1);
    }
  }

  lemma TagRunKeeps(s: State, tag: nat, r: Response, addr: nat, pool: bool, mapOk: bool)
    requires Inv(s) && |s.threads| == 1 && s.threads[0].Tagged? && s.threads[0].irp.call.Exchange? && ClientQueue(s.received)
    requires |r.payload| + HEADER_SIZE == s.threads[0].size && Fresh(s, addr)
    ensures Inv(TagRun(s, tag, r, addr, pool, mapOk))
  {
    hide Inv, Fresh, AnswerRun, Settled, Find, Without, PutBack;
    InvPreserved(s, 0, ReadTag(tag));
    StaysFresh(s, ReadTag(tag), addr);
    var s1 := TagStep(s, tag);
    if s1.threads[0].Responding? {
      AnswerRunKeeps(s1, r, addr, pool, mapOk);
    } else {
      SettledKeeps(s1);
    }
  }

  lemma ServerRunKeeps(s: State, irp: Irp, tag: nat, r: Response, addr: nat, pool: bool, mapOk: bool)
    requires |s.threads| == 1 && s.threads[0].Idle? && irp.call.Exchange? && ClientQueue(s.received)
    requires !Reserved(s.memories, irp, mapOk).Denied? ==> |r.payload| + HEADER_SIZE == BufferSize(s, irp, mapOk)
    ensures Usable(s, irp, addr) && s.server ==> Inv(ServerRun(s, irp, tag, r, addr, pool, mapOk))
  {
    hide Inv, Fresh, TagRun, Reserved, Taken, TakenSize, Rest;
    if Usable(s, irp, addr) && s.server {
      InvPreserved(s, 0, ExchangeCall(irp, mapOk));
      StaysFresh(s, ExchangeCall(irp, mapOk), addr);
      var s1 := ExchangeStep(s, irp, mapOk);
      if s1.threads[0].Tagged? {
        TagRunKeeps(s1, tag, r, addr, pool, mapOk);
      }
    }
  }

  lemma LockRunKeeps(s: State, irp: Irp, addr: nat, mapOk: bool, pool: bool)
    requires |s.threads| == 1 && s.threads[0].Idle? && irp.call.Lock?
    ensures Usable(s, irp, addr) && s.server ==> Inv(LockRun(s, irp, addr, mapOk, pool))
  {
    hide Inv, Fresh;
    if Usable(s, irp, addr) && s.server {
      InvPreserved(s, 0, LockCall(irp, addr, mapOk, pool));
      var s1 := DoLockCall(s, 0, irp, addr, mapOk, pool);
      if s1.threads[0].Queueing? {
        InvPreserved(s1, 0, QueueLock);
      }
    }
  }

  lemma CancelKeeps(s: State)
    requires s.threads == [Idle]
    ensures Inv(s) ==> Inv(DoCancelAll(s.(threads := [Cancelling], server := false), 0))
  {
    hide Inv, CancelLog;
    if Inv(s) {
      InvPreserved(s, 0, Disconnect);
      var s1 := Next(s, 0, Disconnect);
      assert s1.threads == [Cancelling];
      InvPreserved(s1, 0, CancelAll);
    }
  }
}
