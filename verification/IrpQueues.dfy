// How the driver forwards requests of a client to a user-mode server: the four queues of
// an open object, and all interleavings of the requests that any number of threads bring
// in. One step is one region under the queue lock, with what the thread does by itself
// before or after it; a request between two such regions is in the hands of its thread.

module IrpQueues {
  import opened Basics
  import opened Bytes

  const HEADER_SIZE: nat := 4096
  const RANGE_SIZE: nat := 16
  const ULONG_BOUND: nat := 0x1_0000_0000
  const QUAD_BOUND: nat := 0x1_0000_0000_0000_0000

  // Client calls, the server's exchange of a response for the next request, and the lock
  // of a memory buffer that later exchanges name by its key.
  datatype Call =
    | Read(offset: nat, length: nat)
    | Write(offset: nat, data: seq<Byte>)
    | Zero(from: nat, beyond: nat)
    | Trim(ranges: nat)
    | Exchange(output: nat, key: seq<Byte>)
    | Lock(output: nat, key: seq<Byte>)

  datatype Irp = Irp(id: nat, call: Call)

  // MemoryIrp of a queue item.
  datatype Memory = NoMemory | Memory(addr: nat, irp: Irp)

  // A queue item at its address, which serves as the tag of a client request.
  datatype Item = Item(addr: nat, irp: Irp, memory: Memory, mapped: bool, size: nat)

  datatype Status = Success | NotExist | TooSmall | Invalid | NoResources | DeviceError

  // What a completed request brings back besides its status: data for a reading client,
  // a tagged request or the closing notice for the server. Overrun marks a copy that left
  // the client's buffer or the server's.
  datatype Note = Nothing | Data(bytes: seq<Byte>) | Overrun | Request(tag: nat, client: Irp) | Close

  datatype Completion = Completion(irp: Irp, status: Status, length: nat, note: Note)

  datatype ReqCode = ReqNull | ReqInfo | ReqRead | ReqWrite | ReqZero | ReqUnmap | ReqOther

  // What the driver reads of a response. The server process can write to its buffer at any
  // time and the driver keeps no copy, so each read of the length is a value of its own:
  // for the check against the request, for the check against the buffer, for whether there
  // is anything to copy, for the copy, and for the completion. payload is what stands behind
  // the header at the time of the copy.
  datatype Lengths = Lengths(request: nat, buffer: nat, any: nat, copy: nat, report: nat)

  // The tag and the request code are single values: where the code reads them again, it
  // does what it would do had it read some one value the first time.
  datatype Response = Response(code: ReqCode, errorno: nat, length: Lengths, payload: seq<Byte>)

  function Same(n: nat): Lengths {
    Lengths(n, n, n, n, n)
  }

  // A server that leaves its response alone until the exchange is over.
  predicate Stable(r: Response) {
    r.length == Same(r.length.copy)
  }

  datatype Pc =
    | Idle
    | Accepting(client: Item)
    | Sending(client: Item, server: Item)
    | Tagged(irp: Irp, memory: Memory, size: nat)
    | Responding(irp: Irp, memory: Memory, size: nat, answered: Option<Item>)
    | Taking(irp: Irp, memory: Memory, size: nat)
    | Returning(memory: Memory, last: seq<Completion>)
    | Queueing(item: Item)
    | Cancelling

  datatype State = State(
    server: bool,
    received: seq<Item>,
    sent: seq<Item>,
    requests: seq<Item>,
    memories: seq<Item>,
    threads: seq<Pc>,
    done: seq<Completion>,
    issued: set<Irp>,
    arrived: seq<Irp>,     // client requests in the order in which the lock let them in
    left: seq<Irp>)        // client requests in the order in which they went to the server

  datatype Action =
    | ClientCall(irp: Irp, addr: nat, pool: bool)
    | Accept
    | Reserve(mapOk: bool)
    | Transfer(mapOk: bool)
    | ExchangeCall(irp: Irp, mapOk: bool)
    | ReadTag(tag: nat)
    | Respond(r: Response, mapOk: bool)
    | Take(addr: nat, pool: bool)
    | Return
    | LockCall(irp: Irp, addr: nat, mapOk: bool, pool: bool)
    | QueueLock
    | Disconnect
    | CancelAll

  // The calls of clients, with lengths of 32 bits.
  predicate ClientKind(c: Call) {
    match c
    case Read(_, length) => length < ULONG_BOUND
    case Write(_, data) => |data| < ULONG_BOUND
    case Zero(_, _) => true
    case Trim(_) => true
    case Exchange(_, _) => false
    case Lock(_, _) => false
  }

  // The buffer that a client request needs; header and length are added in 32 bits.
  function Need(c: Call): nat
    requires ClientKind(c)
  {
    match c
    case Read(_, length) => (HEADER_SIZE + length) % ULONG_BOUND
    case Write(_, data) => (HEADER_SIZE + |data|) % ULONG_BOUND
    case Zero(_, _) => HEADER_SIZE + RANGE_SIZE
    case Trim(ranges) => HEADER_SIZE + RANGE_SIZE * ranges
  }

  function RequestLength(c: Call): nat {
    match c
    case Write(_, data) => HEADER_SIZE + |data|
    case _ => HEADER_SIZE
  }

  // First item in a queue with a given address, or the queue's length.
  function Find(q: seq<Item>, addr: nat): (i: nat)
    ensures i <= |q| && (i < |q| ==> q[i].addr == addr)
    ensures forall j :: 0 <= j < i ==> q[j].addr != addr
  {
    if q == [] || q[0].addr == addr then 0 else 1 + Find(q[1..], addr)
  }

  // First locked buffer with the key of an exchange.
  function FindKey(q: seq<Item>, key: seq<Byte>): (i: nat)
    ensures i <= |q| && (i < |q| ==> HasKey(q[i], key))
    ensures forall j :: 0 <= j < i ==> !HasKey(q[j], key)
  {
    if q == [] || HasKey(q[0], key) then 0 else 1 + FindKey(q[1..], key)
  }

  predicate HasKey(item: Item, key: seq<Byte>) {
    item.irp.call.Lock? && item.irp.call.key == key
  }

  function Without(q: seq<Item>, i: nat): seq<Item>
    requires i < |q|
  {
    q[..i] + q[i + 1..]
  }

  // DevIoDrvReserveMemoryIrp: the buffer of an exchange is its own output buffer, or a
  // locked buffer, which leaves its queue.
  datatype Reservation = Denied(status: Status) | Own(size: nat) | Locked(i: nat)

  function Reserved(memories: seq<Item>, irp: Irp, mapOk: bool): (r: Reservation)
    requires irp.call.Exchange?
    ensures r.Locked? ==> r.i < |memories| && HasKey(memories[r.i], irp.call.key)
  {
    if irp.call.output > 0 then (if mapOk then Own(irp.call.output) else Denied(NoResources))
    else if irp.call.key == [] then Denied(Invalid)
    else var i := FindKey(memories, irp.call.key);
      if i < |memories| then Locked(i) else Denied(Invalid)
  }

  function Taken(memories: seq<Item>, r: Reservation): Memory
    requires r.Locked? ==> r.i < |memories|
  {
    if r.Locked? then Memory(memories[r.i].addr, memories[r.i].irp) else NoMemory
  }

  function TakenSize(memories: seq<Item>, r: Reservation): nat
    requires r.Locked? ==> r.i < |memories| && memories[r.i].irp.call.Lock?
  {
    match r
    case Denied(_) => 0
    case Own(size) => size
    case Locked(i) => memories[i].irp.call.output
  }

  function Rest(memories: seq<Item>, r: Reservation): seq<Item>
    requires r.Locked? ==> r.i < |memories|
  {
    if r.Locked? then Without(memories, r.i) else memories
  }

  // A memory buffer back in its queue.
  function Requeued(memories: seq<Item>, m: Memory): seq<Item> {
    match m
    case NoMemory => memories
    case Memory(addr, irp) => memories + [Item(addr, irp, NoMemory, true, 0)]
  }

  function Move(s: State, t: nat, pc: Pc): State
    requires t < |s.threads|
  {
    s.(threads := s.threads[t := pc])
  }

  // The end of a request that holds a memory buffer: the buffer is put back in a step of
  // its own, and the completions in last come after that.
  function PutBack(s: State, t: nat, m: Memory, last: seq<Completion>): State
    requires t < |s.threads|
  {
    if m.Memory? then Move(s, t, Returning(m, last))
    else Move(s, t, Idle).(done := s.done + last)
  }

  // DevIoDrvCompleteIrpQueueItem for a server item. A buffer that is too small is given
  // back to the server with the refusal, any other goes back to its queue first.
  function CompleteServer(s: State, t: nat, item: Item, c: Completion): State
    requires t < |s.threads|
  {
    if c.status == TooSmall && item.memory.Memory? then
      Move(s, t, Idle).(done := s.done + [Completion(item.memory.irp, TooSmall, c.length, Nothing), c])
    else PutBack(s, t, item.memory, [c])
  }

  function Fail(irp: Irp, status: Status): Completion {
    Completion(irp, status, 0, Nothing)
  }

  // Start and lock region of DevIoDrvDispatchClientRequest.
  function DoClientCall(s: State, t: nat, irp: Irp, addr: nat, pool: bool): State
    requires t < |s.threads|
  {
    var s := s.(issued := s.issued + {irp});
    if !s.server then s.(done := s.done + [Fail(irp, NotExist)])
    else if !pool then s.(done := s.done + [Fail(irp, NoResources)])
    else Move(s, t, Accepting(Item(addr, irp, NoMemory, false, 0)))
  }

  function DoAccept(s: State, t: nat): State
    requires t < |s.threads| && s.threads[t].Accepting?
  {
    var client := s.threads[t].client;
    if !s.server then Move(s, t, Idle).(done := s.done + [Fail(client.irp, NotExist)])
    else
      var s := s.(arrived := s.arrived + [client.irp]);
      if s.requests == [] then Move(s, t, Idle).(received := s.received + [client])
      else Move(s, t, Sending(client, s.requests[0])).(requests := s.requests[1..])
  }

  // DevIoDrvSendClientRequestToServer: first a buffer, if the server item has none yet.
  function DoReserve(s: State, t: nat, mapOk: bool): State
    requires t < |s.threads| && s.threads[t].Sending? && s.threads[t].server.irp.call.Exchange?
  {
    var client, server := s.threads[t].client, s.threads[t].server;
    var r := Reserved(s.memories, server.irp, mapOk);
    if r.Denied? then
      Move(s, t, Idle).(done := s.done + [Fail(client.irp, r.status), Fail(server.irp, r.status)], left := s.left + [client.irp])
    else
      var server := server.(memory := Taken(s.memories, r), mapped := true, size := TakenSize(s.memories, r));
      Move(s, t, Sending(client, server)).(memories := Rest(s.memories, r))
  }

  // Then the request goes into the buffer, or back to the head of the queue if it does not
  // fit.
  function DoTransfer(s: State, t: nat, mapOk: bool): State
    requires t < |s.threads| && s.threads[t].Sending? && ClientKind(s.threads[t].client.irp.call)
  {
    var client, server := s.threads[t].client, s.threads[t].server;
    if server.size < Need(client.irp.call) then
      CompleteServer(s.(received := [client] + s.received), t, server, Fail(server.irp, TooSmall))
    else if client.irp.call.Write? && client.irp.call.data != [] && !mapOk then
      var s := s.(done := s.done + [Fail(client.irp, NoResources)], left := s.left + [client.irp]);
      CompleteServer(s, t, server, Fail(server.irp, NoResources))
    else
      var s := s.(sent := s.sent + [client], left := s.left + [client.irp]);
      CompleteServer(s, t, server, Completion(server.irp, Success, RequestLength(client.irp.call), Request(client.addr, client.irp)))
  }

  // DevIoDrvDispatchServerIORequest: the buffer,
  function DoExchangeCall(s: State, t: nat, irp: Irp, mapOk: bool): State
    requires t < |s.threads| && irp.call.Exchange?
  {
    var s := s.(issued := s.issued + {irp});
    if 0 < irp.call.output < HEADER_SIZE then s.(done := s.done + [Fail(irp, TooSmall)])
    else
      var r := Reserved(s.memories, irp, mapOk);
      if r.Denied? then s.(done := s.done + [Fail(irp, r.status)])
      else Move(s, t, Tagged(irp, Taken(s.memories, r), TakenSize(s.memories, r))).(memories := Rest(s.memories, r))
  }

  // the client request that the response is for,
  function DoReadTag(s: State, t: nat, tag: nat): State
    requires t < |s.threads| && s.threads[t].Tagged?
  {
    var pc := s.threads[t];
    var i := Find(s.sent, tag);
    if tag == 0 then Move(s, t, Responding(pc.irp, pc.memory, pc.size, None))
    else if i == |s.sent| then PutBack(s.(done := s.done + [Fail(pc.irp, Invalid)]), t, pc.memory, [])
    else Move(s, t, Responding(pc.irp, pc.memory, pc.size, Some(s.sent[i]))).(sent := Without(s.sent, i))
  }

  // the response itself,
  datatype Verdict = Accepted(client: seq<Completion>) | Unmapped(client: seq<Completion>) | Bad(client: seq<Completion>)

  function Outcome(client: Irp, r: Response, length: nat, note: Note): Completion {
    if r.errorno == 0 then Completion(client, Success, length, note) else Completion(client, DeviceError, length, note)
  }

  // Whether a read response is taken: its length fits the request and the mapped buffer,
  // with the header added in 64 bits.
  predicate ReadFits(size: nat, client: Irp, r: Response) {
    && client.call.Read? && r.code == ReqRead && client.call.length >= r.length.request
    && size >= (HEADER_SIZE + r.length.buffer) % QUAD_BOUND
  }

  // What the copy puts into a reading client's buffer.
  function Copied(length: nat, r: Response): Note {
    if r.length.any == 0 then Data([])
    else if r.length.copy <= length && r.length.copy <= |r.payload| then Data(r.payload[..r.length.copy])
    else Overrun
  }

  function Judge(size: nat, answered: Option<Item>, r: Response, mapOk: bool): Verdict
    requires |r.payload| + HEADER_SIZE == size
  {
    match answered
    case None => if r.code == ReqInfo || r.code == ReqNull then Accepted([]) else Bad([])
    case Some(item) =>
      var client := item.irp;
      if ReadFits(size, client, r) then
        if r.length.any > 0 && !mapOk then Unmapped([Fail(client, NoResources)])
        else Accepted([Outcome(client, r, r.length.report, Copied(client.call.length, r))])
      else if client.call.Write? && r.code == ReqWrite && |client.call.data| >= r.length.request then
        Accepted([Outcome(client, r, r.length.report, Nothing)])
      else if client.call.Zero? && r.code == ReqZero then Accepted([Outcome(client, r, 0, Nothing)])
      else if client.call.Trim? && r.code == ReqUnmap then
        Accepted([Outcome(client, r, if r.errorno == 0 then 4 else 0, Nothing)])
      else Bad([Fail(client, DeviceError)])
  }

  function DoRespond(s: State, t: nat, r: Response, mapOk: bool): State
    requires t < |s.threads| && s.threads[t].Responding? && |r.payload| + HEADER_SIZE == s.threads[t].size
  {
    var pc := s.threads[t];
    var v := Judge(pc.size, pc.answered, r, mapOk);
    var s := s.(done := s.done + v.client);
    match v
    case Accepted(_) => Move(s, t, Taking(pc.irp, pc.memory, pc.size))
    case Unmapped(_) => PutBack(s.(done := s.done + [Fail(pc.irp, NoResources)]), t, pc.memory, [])
    case Bad(_) => PutBack(s.(done := s.done + [Fail(pc.irp, Invalid)]), t, pc.memory, [])
  }

  // and the next client request, if there is one.
  function DoTake(s: State, t: nat, addr: nat, pool: bool): State
    requires t < |s.threads| && s.threads[t].Taking?
  {
    var pc := s.threads[t];
    if !pool then PutBack(s.(done := s.done + [Fail(pc.irp, NoResources)]), t, pc.memory, [])
    else if s.received == [] then
      Move(s, t, Idle).(memories := Requeued(s.memories, pc.memory),
                        requests := s.requests + [Item(addr, pc.irp, NoMemory, false, 0)])
    else
      Move(s, t, Sending(s.received[0], Item(addr, pc.irp, pc.memory, true, pc.size))).(received := s.received[1..])
  }

  function DoReturn(s: State, t: nat): State
    requires t < |s.threads| && s.threads[t].Returning?
  {
    var pc := s.threads[t];
    Move(s, t, Idle).(memories := Requeued(s.memories, pc.memory), done := s.done + pc.last)
  }

  // DevIoDrvDispatchServerLockMemory.
  function DoLockCall(s: State, t: nat, irp: Irp, addr: nat, mapOk: bool, pool: bool): State
    requires t < |s.threads| && irp.call.Lock?
  {
    var s := s.(issued := s.issued + {irp});
    if irp.call.output < HEADER_SIZE then s.(done := s.done + [Fail(irp, TooSmall)])
    else if !mapOk || !pool then s.(done := s.done + [Fail(irp, NoResources)])
    else Move(s, t, Queueing(Item(addr, irp, NoMemory, true, 0)))
  }

  function DoQueueLock(s: State, t: nat): State
    requires t < |s.threads| && s.threads[t].Queueing?
  {
    Move(s, t, Idle).(memories := s.memories + [s.threads[t].item])
  }

  // What DevIoDrvCancelAll completes an item with: the server's buffers carry a closing
  // notice.
  function Cancelled(item: Item): Completion {
    if item.mapped then Completion(item.irp, Success, HEADER_SIZE, Close) else Fail(item.irp, NotExist)
  }

  function CancelledQueue(q: seq<Item>): (c: seq<Completion>)
    ensures |c| == |q| && forall i :: 0 <= i < |q| ==> c[i] == Cancelled(q[i])
  {
    seq(|q|, i requires 0 <= i < |q| => Cancelled(q[i]))
  }

  function NotExistQueue(q: seq<Item>): (c: seq<Completion>)
    ensures |c| == |q| && forall i :: 0 <= i < |q| ==> c[i] == Fail(q[i].irp, NotExist)
  {
    seq(|q|, i requires 0 <= i < |q| => Fail(q[i].irp, NotExist))
  }

  function CancelLog(s: State): seq<Completion> {
    CancelledQueue(s.requests) + (CancelledQueue(s.memories) + (NotExistQueue(s.received) + NotExistQueue(s.sent)))
  }

  function DoCancelAll(s: State, t: nat): State
    requires t < |s.threads|
  {
    Move(s, t, Idle).(
      received := [], sent := [], requests := [], memories := [],
      done := s.done + CancelLog(s))
  }
}
