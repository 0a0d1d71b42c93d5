// Counting where a request, or the memory of a queue item, is: the queues, the hands of
// the threads and the log of completions.

module IrpCounting {
  import opened Basics
  import opened IrpQueues

  // What is counted: a request, or an address that a live queue item occupies.
  datatype Token = Of(irp: Irp) | At(addr: nat)

  function Bit(b: bool): nat {
    if b then 1 else 0
  }

  function IrpCount(irp: Irp, x: Token): nat {
    Bit(x == Of(irp))
  }

  function MemoryCount(m: Memory, x: Token): nat {
    if m.Memory? then IrpCount(m.irp, x) + Bit(x == At(m.addr)) else 0
  }

  function ItemCount(item: Item, x: Token): nat {
    IrpCount(item.irp, x) + Bit(x == At(item.addr)) + MemoryCount(item.memory, x)
  }

  function OptionCount(item: Option<Item>, x: Token): nat {
    if item.Some? then ItemCount(item.value, x) else 0
  }

  function QueueCount(q: seq<Item>, x: Token): nat {
    if q == [] then 0 else ItemCount(q[0], x) + QueueCount(q[1..], x)
  }

  function DoneCount(d: seq<Completion>, x: Token): nat {
    if d == [] then 0 else IrpCount(d[0].irp, x) + DoneCount(d[1..], x)
  }

  function HandCount(pc: Pc, x: Token): nat {
    match pc
    case Idle => 0
    case Accepting(client) => ItemCount(client, x)
    case Sending(client, server) => ItemCount(client, x) + ItemCount(server, x)
    case Tagged(irp, memory, _) => IrpCount(irp, x) + MemoryCount(memory, x)
    case Responding(irp, memory, _, answered) => IrpCount(irp, x) + MemoryCount(memory, x) + OptionCount(answered, x)
    case Taking(irp, memory, _) => IrpCount(irp, x) + MemoryCount(memory, x)
    case Returning(memory, last) => MemoryCount(memory, x) + DoneCount(last, x)
    case Queueing(item) => ItemCount(item, x)
    case Cancelling => 0
  }

  function HandsCount(threads: seq<Pc>, x: Token): nat {
    if threads == [] then 0 else HandCount(threads[0], x) + HandsCount(threads[1..], x)
  }

  // In all places together. An address is only ever counted while its item is live.
  function Count(s: State, x: Token): nat {
    QueueCount(s.received, x) + QueueCount(s.sent, x) + QueueCount(s.requests, x) + QueueCount(s.memories, x)
    + HandsCount(s.threads, x) + DoneCount(s.done, x)
  }

  lemma {:induction false} QueueAppend(p: seq<Item>, q: seq<Item>, x: Token)
    ensures QueueCount(p + q, x) == QueueCount(p, x) + QueueCount(q, x)
  {
    if p == [] {
      assert p + q == q;
    } else {
      assert (p + q)[1..] == p[1..] + q && (p + q)[0] == p[0];
      QueueAppend(p[1..], q, x);
    }
  }

  lemma QueueHead(q: seq<Item>, x: Token)
    requires q != []
    ensures QueueCount(q, x) == ItemCount(q[0], x) + QueueCount(q[1..], x)
  {
  }

  lemma QueueOne(item: Item, x: Token)
    ensures QueueCount([item], x) == ItemCount(item, x)
  {
    assert [item][1..] == [];
  }

  lemma QueuePush(q: seq<Item>, item: Item, x: Token)
    ensures QueueCount(q + [item], x) == QueueCount(q, x) + ItemCount(item, x)
    ensures QueueCount([item] + q, x) == QueueCount(q, x) + ItemCount(item, x)
  {
    QueueAppend(q, [item], x);
    QueueAppend([item], q, x);
    QueueOne(item, x);
  }

  lemma QueueWithout(q: seq<Item>, i: nat, x: Token)
    requires i < |q|
    ensures QueueCount(Without(q, i), x) + ItemCount(q[i], x) == QueueCount(q, x)
  {
    assert q == q[..i] + ([q[i]] + q[i + 1..]);
    QueueAppend(q[..i], [q[i]] + q[i + 1..], x);
    QueuePush(q[i + 1..], q[i], x);
    QueueAppend(q[..i], q[i + 1..], x);
  }

  lemma {:induction false} DoneAppend(p: seq<Completion>, q: seq<Completion>, x: Token)
    ensures DoneCount(p + q, x) == DoneCount(p, x) + DoneCount(q, x)
  {
    if p == [] {
      assert p + q == q;
    } else {
      assert (p + q)[1..] == p[1..] + q && (p + q)[0] == p[0];
      DoneAppend(p[1..], q, x);
    }
  }

  lemma DoneOne(c: Completion, x: Token)
    ensures DoneCount([c], x) == IrpCount(c.irp, x)
  {
    assert [c][1..] == [];
  }

  lemma {:induction false} HandsMove(threads: seq<Pc>, t: nat, pc: Pc, x: Token)
    requires t < |threads|
    ensures HandsCount(threads[t := pc], x) + HandCount(threads[t], x) == HandsCount(threads, x) + HandCount(pc, x)
  {
    var moved := threads[t := pc];
    if t == 0 {
      assert moved[1..] == threads[1..];
    } else {
      assert moved[1..] == threads[1..][t - 1 := pc] && moved[0] == threads[0];
      HandsMove(threads[1..], t - 1, pc, x);
    }
  }

  lemma {:induction false} HandInHands(threads: seq<Pc>, t: nat, x: Token)
    requires t < |threads|
    ensures HandCount(threads[t], x) <= HandsCount(threads, x)
  {
    if t > 0 {
      HandInHands(threads[1..], t - 1, x);
    }
  }

  lemma {:induction false} ItemInQueue(q: seq<Item>, i: nat, x: Token)
    requires i < |q|
    ensures ItemCount(q[i], x) <= QueueCount(q, x)
  {
    if i > 0 {
      ItemInQueue(q[1..], i - 1, x);
    }
  }

  lemma {:induction false} TwoInQueue(q: seq<Item>, i: nat, j: nat, x: Token)
    requires i < j < |q|
    ensures ItemCount(q[i], x) + ItemCount(q[j], x) <= QueueCount(q, x)
  {
    if i == 0 {
      ItemInQueue(q[1..], j - 1, x);
    } else {
      TwoInQueue(q[1..], i - 1, j - 1, x);
    }
  }

  lemma {:induction false} TwoHands(threads: seq<Pc>, t: nat, u: nat, x: Token)
    requires t < u < |threads|
    ensures HandCount(threads[t], x) + HandCount(threads[u], x) <= HandsCount(threads, x)
  {
    if t == 0 {
      HandInHands(threads[1..], u - 1, x);
    } else {
      TwoHands(threads[1..], t - 1, u - 1, x);
    }
  }

  lemma {:induction false} InDone(d: seq<Completion>, i: nat, x: Token)
    requires i < |d|
    ensures IrpCount(d[i].irp, x) <= DoneCount(d, x)
  {
    if i > 0 {
      InDone(d[1..], i - 1, x);
    }
  }

  lemma {:induction false} TwoInDone(d: seq<Completion>, i: nat, j: nat, x: Token)
    requires i < j < |d|
    ensures IrpCount(d[i].irp, x) + IrpCount(d[j].irp, x) <= DoneCount(d, x)
  {
    if i == 0 {
      InDone(d[1..], j - 1, x);
    } else {
      TwoInDone(d[1..], i - 1, j - 1, x);
    }
  }

  // A queue whose items hold no memory buffer, completed item by item.
  lemma {:induction false} CompletedQueue(q: seq<Item>, d: seq<Completion>, x: Irp)
    requires |d| == |q| && forall i :: 0 <= i < |q| ==> d[i].irp == q[i].irp && q[i].memory == NoMemory
    ensures DoneCount(d, Of(x)) == QueueCount(q, Of(x))
  {
    if q != [] {
      CompletedQueue(q[1..], d[1..], x);
    }
  }

  // How the count moves with a thread and with the log.
  lemma MoveCount(s: State, t: nat, pc: Pc, x: Token)
    requires t < |s.threads|
    ensures Count(Move(s, t, pc), x) + HandCount(s.threads[t], x) == Count(s, x) + HandCount(pc, x)
  {
    HandsMove(s.threads, t, pc, x);
  }

  // The count after a step of thread t that adds d to the log, part by part.
  lemma StepCount(s: State, s': State, t: nat, d: seq<Completion>, x: Token)
    requires t < |s.threads| && |s'.threads| == |s.threads| && s'.threads == s.threads[t := s'.threads[t]]
    requires s'.done == s.done + d
    ensures Count(s', x) + HandCount(s.threads[t], x) + QueuesCount(s, x)
         == Count(s, x) + HandCount(s'.threads[t], x) + QueuesCount(s', x) + DoneCount(d, x)
  {
    HandsMove(s.threads, t, s'.threads[t], x);
    DoneAppend(s.done, d, x);
  }

  function QueuesCount(s: State, x: Token): nat {
    QueueCount(s.received, x) + QueueCount(s.sent, x) + QueueCount(s.requests, x) + QueueCount(s.memories, x)
  }

  lemma LogCount(s: State, d: seq<Completion>, x: Token)
    ensures Count(s.(done := s.done + d), x) == Count(s, x) + DoneCount(d, x)
  {
    DoneAppend(s.done, d, x);
  }

  lemma PutBackCount(s: State, t: nat, m: Memory, last: seq<Completion>, x: Token)
    requires t < |s.threads|
    ensures PutBack(s, t, m, last).issued == s.issued
    ensures Count(PutBack(s, t, m, last), x) + HandCount(s.threads[t], x) == Count(s, x) + MemoryCount(m, x) + DoneCount(last, x)
  {
    MoveCount(s, t, Returning(m, last), x);
    MoveCount(s, t, Idle, x);
    LogCount(Move(s, t, Idle), last, x);
  }

  lemma RequeuedCount(memories: seq<Item>, m: Memory, x: Token)
    ensures QueueCount(Requeued(memories, m), x) == QueueCount(memories, x) + MemoryCount(m, x)
  {
    if m.Memory? {
      QueuePush(memories, Item(m.addr, m.irp, NoMemory, true, 0), x);
    }
  }

  lemma TakenCount(memories: seq<Item>, r: Reservation, x: Token)
    requires r.Locked? ==> r.i < |memories| && memories[r.i].memory == NoMemory
    ensures QueueCount(Rest(memories, r), x) + MemoryCount(Taken(memories, r), x) == QueueCount(memories, x)
  {
    if r.Locked? {
      QueueWithout(memories, r.i, x);
    }
  }

  lemma TwoDone(c: Completion, e: Completion, x: Token)
    ensures DoneCount([c, e], x) == IrpCount(c.irp, x) + IrpCount(e.irp, x)
  {
    assert [c, e][1..] == [e];
    DoneOne(e, x);
  }

  // A server item that is completed, with the buffer that it holds.
  lemma CompleteServerCount(s: State, t: nat, item: Item, c: Completion, x: Token)
    requires t < |s.threads| && c.irp == item.irp
    ensures CompleteServer(s, t, item, c).issued == s.issued
    ensures var after := Count(CompleteServer(s, t, item, c), x) + HandCount(s.threads[t], x);
            && (x.Of? ==> after == Count(s, x) + ItemCount(item, x))
            && after <= Count(s, x) + ItemCount(item, x)
  {
    DoneOne(c, x);
    PutBackCount(s, t, item.memory, [c], x);
    if c.status == TooSmall && item.memory.Memory? {
      var first := Completion(item.memory.irp, TooSmall, c.length, Nothing);
      MoveCount(s, t, Idle, x);
      TwoDone(first, c, x);
      LogCount(Move(s, t, Idle), [first, c], x);
    }
  }
}
