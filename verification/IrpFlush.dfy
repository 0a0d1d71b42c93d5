// An exchange of devio with the driver's open object, and its retry loop: each turn but the
// last is an exchange that the driver refuses for the size of the buffer.

module IrpFlush {
  import opened Basics
  import opened Bytes
  import opened IrpQueues
  import opened IrpContext
  import H = IrpHandshake

  // The object has one locked buffer, at an address, with a key and a length.
  predicate HasBuffer(s: State, addr: nat, key: seq<Byte>, lock: Irp) {
    s.memories == [Item(addr, lock, NoMemory, true, 0)] && lock.call.Lock? && lock.call.key == key != [] && lock.call.output >= HEADER_SIZE
  }

  predicate FirstWaits(s: State) {
    s.threads == [Idle] && s.received != [] && ClientQueue(s.received) && ClientQueue(s.sent)
  }

  // A request waits at the driver, or an exchange that comes now will wait for one.
  predicate Ready(s: State, c: Item) {
    && s.threads == [Idle] && ClientQueue(s.received) && ClientQueue(s.sent)
    && (s.received == [] ==> s.server && s.requests == [] && ClientKind(c.irp.call) && c == Item(c.addr, c.irp, NoMemory, false, 0))
  }

  // What the exchange meets in the end: in the second case, the request that comes then.
  function Met(s: State, c: Item): State {
    if s.received != [] then s
    else s.(received := [c], issued := s.issued + {c.irp}, arrived := s.arrived + [c.irp])
  }

  // The response in a buffer is taken: the request that it answers was sent and not yet
  // answered, and it is of the right kind and length.
  predicate Answers(s: State, tag: nat, r: Response, length: nat)
    requires |r.payload| + HEADER_SIZE == length
  {
    if tag == 0 then Judge(length, None, r, true).Accepted?
    else
      var i := Find(s.sent, tag);
      i < |s.sent| && Judge(length, Some(s.sent[i]), r, true).Accepted?
  }

  // The object when it has been: the answered request is completed.
  function Responded(s: State, tag: nat, r: Response, length: nat): State
    requires |r.payload| + HEADER_SIZE == length && Answers(s, tag, r, length)
  {
    if tag == 0 then s
    else
      var i := Find(s.sent, tag);
      s.(sent := Without(s.sent, i), done := s.done + Judge(length, Some(s.sent[i]), r, true).client)
  }

  // A buffer that was just cleared asks for the next request and answers none.
  function Cleared(length: nat): Response
    requires length >= HEADER_SIZE
  {
    Response(ReqNull, 0, Same(0), seq(length - HEADER_SIZE, _ => 0))
  }

  // What the exchange of such a buffer does to an object in which a request waits: the
  // request goes into the buffer if it fits; if not, it stays first in its queue, and both
  // the exchange and the buffer are given back.
  function Exchanged(s: State, irp: Irp, addr: nat, lock: Irp): State
    requires FirstWaits(s) && irp.call.Exchange? && HasBuffer(s, addr, irp.call.key, lock)
  {
    var c := s.received[0];
    var s1 := s.(issued := s.issued + {irp});
    if lock.call.output < Need(c.irp.call) then
      s1.(memories := [], done := s.done + [Fail(lock, TooSmall), Fail(irp, TooSmall)])
    else
      s1.(received := s.received[1..], sent := s.sent + [c], left := s.left + [c.irp],
          done := s.done + [Completion(irp, Success, RequestLength(c.irp.call), Request(c.addr, c.irp))])
  }

  lemma BufferReserved(s: State, irp: Irp, addr: nat, lock: Irp)
    requires irp.call.Exchange? && irp.call.output == 0 && HasBuffer(s, addr, irp.call.key, lock)
    ensures Reserved(s.memories, irp, true) == Reservation.Locked(0)
    ensures Taken(s.memories, Reservation.Locked(0)) == Memory(addr, lock) && Rest(s.memories, Reservation.Locked(0)) == []
    ensures BufferSize(s, irp, true) == lock.call.output
  {
    assert HasKey(s.memories[0], irp.call.key);
    assert Without(s.memories, 0) == [];
  }

  lemma TransferInHand(s: State, irp: Irp, item: nat, addr: nat, lock: Irp)
    requires FirstWaits(s) && irp.call.Exchange? && HasBuffer(s, addr, irp.call.key, lock)
    ensures var server := Item(item, irp, Memory(addr, lock), true, lock.call.output);
            var s1 := s.(issued := s.issued + {irp}, memories := [], received := s.received[1..], threads := [Sending(s.received[0], server)]);
            SendRun(s1, true) == Exchanged(s, irp, addr, lock)
  {
    hide Need, RequestLength, ClientKind;
    var server := Item(item, irp, Memory(addr, lock), true, lock.call.output);
    var s1 := s.(issued := s.issued + {irp}, memories := [], received := s.received[1..], threads := [Sending(s.received[0], server)]);
    assert [s.received[0]] + s.received[1..] == s.received;
    assert SendRun(s1, true).threads == [Idle];
  }

  lemma TakenInHand(s: State, irp: Irp, item: nat, addr: nat, lock: Irp)
    requires FirstWaits(s) && irp.call.Exchange? && HasBuffer(s, addr, irp.call.key, lock)
    ensures var s1 := s.(issued := s.issued + {irp}, memories := [], threads := [Taking(irp, Memory(addr, lock), lock.call.output)]);
            TakeRun(s1, item, true, true) == Exchanged(s, irp, addr, lock)
  {
    hide SendRun, Exchanged, ClientKind;
    TransferInHand(s, irp, item, addr, lock);
    var s1 := s.(issued := s.issued + {irp}, memories := [], threads := [Taking(irp, Memory(addr, lock), lock.call.output)]);
    assert DoTake(s1, 0, item, true).threads
        == [Sending(s.received[0], Item(item, irp, Memory(addr, lock), true, lock.call.output))];
  }

  lemma ResponseTaken(s: State, tag: nat, r: Response, length: nat, c: Item)
    requires Ready(s, c) && |r.payload| + HEADER_SIZE == length && Answers(s, tag, r, length)
    ensures var s1 := Responded(s, tag, r, length);
            Ready(s1, c) && s1.received == s.received && s1.requests == s.requests
    ensures tag == 0 ==> s.done + Judge(length, None, r, true).client == s.done
  {
    hide ClientKind, ReadFits;
  }

  // An exchange with a response that is taken comes to ask for the next request.
  lemma ExchangeAsks(s: State, irp: Irp, item: nat, addr: nat, lock: Irp, tag: nat, r: Response, c: Item)
    requires Ready(s, c) && irp.call.Exchange? && irp.call.output == 0 && HasBuffer(s, addr, irp.call.key, lock)
    requires |r.payload| + HEADER_SIZE == lock.call.output && Answers(s, tag, r, lock.call.output)
    ensures BufferSize(s, irp, true) == lock.call.output
    ensures var s1 := Responded(s, tag, r, lock.call.output);
            var asking := s1.(issued := s1.issued + {irp}, memories := [], threads := [Taking(irp, Memory(addr, lock), lock.call.output)]);
            ServerRun(s, irp, tag, r, item, true, true) == TakeRun(asking, item, true, true)
  {
    hide TakeRun, Exchanged, Reserved, Taken, Rest, ClientKind, Find, Judge, Without, PutBack;
    BufferReserved(s, irp, addr, lock);
    ResponseTaken(s, tag, r, lock.call.output, c);
    var m, size := Memory(addr, lock), lock.call.output;
    var s0 := s.(issued := s.issued + {irp}, memories := []);
    assert ExchangeStep(s, irp, true) == s0.(threads := [Tagged(irp, m, size)]);
    var answered := if tag == 0 then None else Some(s.sent[Find(s.sent, tag)]);
    var s1 := if tag == 0 then s0 else s0.(sent := Without(s.sent, Find(s.sent, tag)));
    assert TagStep(s0.(threads := [Tagged(irp, m, size)]), tag) == s1.(threads := [Responding(irp, m, size, answered)]);
    var s2 := s1.(done := s1.done + Judge(size, answered, r, true).client);
    assert DoRespond(s1.(threads := [Responding(irp, m, size, answered)]), 0, r, true) == s2.(threads := [Taking(irp, m, size)]);
    var responded := Responded(s, tag, r, size);
    assert s2 == responded.(issued := responded.issued + {irp}, memories := []);
  }

  // If one waits, it gets it.
  lemma ExchangeIs(s: State, irp: Irp, item: nat, addr: nat, lock: Irp, tag: nat, r: Response)
    requires FirstWaits(s) && irp.call.Exchange? && irp.call.output == 0 && HasBuffer(s, addr, irp.call.key, lock)
    requires |r.payload| + HEADER_SIZE == lock.call.output && Answers(s, tag, r, lock.call.output)
    ensures BufferSize(s, irp, true) == lock.call.output
    ensures ServerRun(s, irp, tag, r, item, true, true) == Exchanged(Responded(s, tag, r, lock.call.output), irp, addr, lock)
  {
    hide ServerRun, TakeRun, Exchanged, ClientKind, Answers, Responded, Find, Judge;
    var c := s.received[0];
    ExchangeAsks(s, irp, item, addr, lock, tag, r, c);
    ResponseTaken(s, tag, r, lock.call.output, c);
    RespondedBuffer(s, tag, r, addr, irp.call.key, lock);
    TakenInHand(Responded(s, tag, r, lock.call.output), irp, item, addr, lock);
  }

  lemma RespondedBuffer(s: State, tag: nat, r: Response, addr: nat, key: seq<Byte>, lock: Irp)
    requires HasBuffer(s, addr, key, lock) && |r.payload| + HEADER_SIZE == lock.call.output
    requires Answers(s, tag, r, lock.call.output)
    ensures HasBuffer(Responded(s, tag, r, lock.call.output), addr, key, lock)
  {
    hide Judge, Find, Answers;
  }

  // If none does, the exchange is queued and its buffer goes back,
  function Pending(s: State, irp: Irp, item: nat): State {
    s.(issued := s.issued + {irp}, requests := [Item(item, irp, NoMemory, false, 0)])
  }

  lemma ExchangeWaits(s: State, irp: Irp, item: nat, addr: nat, lock: Irp, tag: nat, r: Response, c: Item)
    requires Ready(s, c) && s.received == []
    requires irp.call.Exchange? && irp.call.output == 0 && HasBuffer(s, addr, irp.call.key, lock)
    requires |r.payload| + HEADER_SIZE == lock.call.output && Answers(s, tag, r, lock.call.output)
    ensures BufferSize(s, irp, true) == lock.call.output
    ensures ServerRun(s, irp, tag, r, item, true, true) == Pending(Responded(s, tag, r, lock.call.output), irp, item)
  {
    hide ServerRun, ClientKind, Answers, Responded, Find, Judge;
    ExchangeAsks(s, irp, item, addr, lock, tag, r, c);
    ResponseTaken(s, tag, r, lock.call.output, c);
    RespondedBuffer(s, tag, r, addr, irp.call.key, lock);
    var s1 := Responded(s, tag, r, lock.call.output);
    assert [] + [Item(addr, lock, NoMemory, true, 0)] == s1.memories;
    assert [] + [Item(item, irp, NoMemory, false, 0)] == [Item(item, irp, NoMemory, false, 0)];
  }

  // and the request that comes next finds both.
  lemma ArrivalIs(s: State, irp: Irp, item: nat, addr: nat, lock: Irp, c: Item)
    requires Ready(s, c) && s.received == []
    requires irp.call.Exchange? && irp.call.output == 0 && HasBuffer(s, addr, irp.call.key, lock)
    ensures FirstWaits(Met(s, c)) && HasBuffer(Met(s, c), addr, irp.call.key, lock)
    ensures ClientRun(Pending(s, irp, item), c.irp, c.addr, true, true) == Exchanged(Met(s, c), irp, addr, lock)
  {
    hide Exchanged, Reserved, Taken, Rest, ClientKind, DoTransfer, Settled;
    var met, server := Met(s, c), Item(item, irp, Memory(addr, lock), true, lock.call.output);
    BufferReserved(s, irp, addr, lock);
    TransferInHand(met, irp, item, addr, lock);
    var s1 := met.(issued := met.issued + {irp}, memories := [], received := [], threads := [Sending(c, server)]);
    assert met.received[1..] == [];
    var pending := Pending(s, irp, item);
    var s2 := pending.(issued := pending.issued + {c.irp}, arrived := pending.arrived + [c.irp], requests := [],
                       threads := [Sending(c, pending.requests[0])]);
    assert DoAccept(DoClientCall(pending, 0, c.irp, c.addr, true), 0) == s2;
    assert s2.issued == s1.issued;
    assert ReserveStep(s2, true) == s1;
  }

  // An exchange with one that is not.
  lemma ExchangeFails(s: State, irp: Irp, item: nat, addr: nat, lock: Irp, tag: nat, r: Response)
    requires s.threads == [Idle] && ClientQueue(s.received)
    requires irp.call.Exchange? && irp.call.output == 0 && HasBuffer(s, addr, irp.call.key, lock)
    requires |r.payload| + HEADER_SIZE == lock.call.output && !Answers(s, tag, r, lock.call.output)
    ensures BufferSize(s, irp, true) == lock.call.output
    ensures var s' := ServerRun(s, irp, tag, r, item, true, true);
            s'.requests == s.requests && s'.done != [] && s'.done[|s'.done| - 1] == Fail(irp, Invalid)
  {
    hide TakeRun, Reserved, Taken, Rest, ClientKind, Find, Without, ReadFits;
    BufferReserved(s, irp, addr, lock);
    var m, size := Memory(addr, lock), lock.call.output;
    var s0 := s.(issued := s.issued + {irp}, memories := []);
    assert ExchangeStep(s, irp, true) == s0.(threads := [Tagged(irp, m, size)]);
    var s1 := TagStep(s0.(threads := [Tagged(irp, m, size)]), tag);
    if s1.threads[0].Responding? {
      AlwaysMapped(size, s1.threads[0].answered, r);
    }
  }

  lemma AlwaysMapped(size: nat, answered: Option<Item>, r: Response)
    requires |r.payload| + HEADER_SIZE == size
    ensures !Judge(size, answered, r, true).Unmapped?
  {
  }

  // An object after some refused exchanges: nothing but the log has changed, and the log
  // has two refusals for each.
  predicate RefusedSo(s0: State, s: State, n: nat) {
    && s.received == s0.received && s.sent == s0.sent && s.left == s0.left && s.requests == s0.requests
    && s.server == s0.server && s.threads == s0.threads && Refusals(s0.done, s.done, n)
  }

  predicate Refusals(before: seq<Completion>, after: seq<Completion>, n: nat) {
    before <= after && |after| == |before| + 2 * n && forall i :: |before| <= i < |after| ==> after[i].status == TooSmall
  }

  // And after the exchange that got the first request.
  predicate DeliveredSo(s0: State, s: State, n: nat) {
    && s0.received != [] && s.done != [] &&
    var c, last := s0.received[0], s.done[|s.done| - 1];
    && s.received == s0.received[1..] && s.sent == s0.sent + [c] && s.left == s0.left + [c.irp]
    && s.requests == s0.requests && s.server == s0.server && s.threads == s0.threads
    && Refusals(s0.done, s.done[..|s.done| - 1], n) && last.status == Success && last.note == Request(c.addr, c.irp)
  }

  // One turn of the loop: the driver's answer tells whether the buffer was too small.
  lemma Turn(s0: State, s: State, irp: Irp, addr: nat, lock: Irp, n: nat)
    requires FirstWaits(s0) && RefusedSo(s0, s, n) && irp.call.Exchange? && HasBuffer(s, addr, irp.call.key, lock)
    ensures var s' := Exchanged(s, irp, addr, lock);
            && s'.done != [] && s'.done[|s'.done| - 1].status == (if lock.call.output < Need(s0.received[0].irp.call) then TooSmall else Success)
            && (if lock.call.output < Need(s0.received[0].irp.call) then RefusedSo(s0, s', n + 1) && s'.memories == []
                else DeliveredSo(s0, s', n))
  {
    hide Need, RequestLength, ClientKind;
    var s' := Exchanged(s, irp, addr, lock);
    if lock.call.output >= Need(s0.received[0].irp.call) {
      assert s'.done[..|s'.done| - 1] == s.done;
    }
  }

  lemma LockIs(s: State, lock: Irp, addr: nat, s0: State, n: nat)
    requires FirstWaits(s0) && RefusedSo(s0, s, n) && s.memories == []
    requires lock.call.Lock? && lock.call.key != [] && HEADER_SIZE <= lock.call.output
    ensures var s' := LockRun(s, lock, addr, true, true); RefusedSo(s0, s', n) && HasBuffer(s', addr, lock.call.key, lock)
  {
  }

  // The region that is mapped for a buffer: the bytes behind the header, rounded up with it
  // to whole pages, and the length that is locked.
  method MapRegion(size: nat) returns (behind: nat, length: nat)
    ensures behind == H.Rounded(size) && length == H.Region(behind)
  {
    var region := (size + HEADER_SIZE + H.PAGE - 1) / H.PAGE * H.PAGE;
    behind := (region - HEADER_SIZE) % ULONG_BOUND;
    length := (behind + HEADER_SIZE) % ULONG_BOUND;
  }

  class DriverBuffer {
    var bufferSize: nat    // bytes behind the header
    const key: seq<Byte>   // the address of the view, which names the locked memory

    constructor (size: nat, key: seq<Byte>)
      ensures bufferSize == size && this.key == key
    {
      bufferSize := size;
      this.key := key;
    }

    // Maps a region of whole pages, takes its size, and locks it.
    method AllocDrvBuffer(driver: ObjectContext, id: nat) returns (lock: Irp)
      modifies this`bufferSize, driver
      ensures bufferSize == H.Rounded(old(bufferSize)) && lock == Irp(id, Lock(H.Region(bufferSize), key))
      ensures driver.View(Idle) == LockRun(old(driver.View(Idle)), lock, id, true, true)
    {
      hide LockRun, H.Rounded, H.Region;
      var length;
      bufferSize, length := MapRegion(bufferSize);
      lock := Irp(id, Lock(length, key));
      driver.DispatchServerLockMemory(lock, id, true, true);
    }

    // One exchange, and how the driver completed it; c is the client's request that comes
    // while the exchange waits, if it does.
    method Exchange(driver: ObjectContext, id: nat, tag: nat, r: Response, c: Item, ghost addr: nat, ghost lock: Irp)
      returns (status: Status)
      requires Ready(driver.View(Idle), c) && HasBuffer(driver.View(Idle), addr, key, lock)
      requires |r.payload| + HEADER_SIZE == lock.call.output
      modifies driver
      ensures driver.done != [] && status == driver.done[|driver.done| - 1].status
      ensures if Answers(old(driver.View(Idle)), tag, r, lock.call.output) then
                Arrived(old(driver.View(Idle)), tag, r, c, addr, key, lock)
                && driver.View(Idle) == Exchanged(Met(Responded(old(driver.View(Idle)), tag, r, lock.call.output), c),
                                                  Irp(id, Call.Exchange(0, key)), addr, lock)
              else
                status == Invalid
    {
      hide Reserved, ServerRun, ClientRun, Need, RequestLength, BufferSize, ClientKind, Answers, Responded, Exchanged;
      var irp := Irp(id, Call.Exchange(0, key));
      ghost var s := driver.View(Idle);
      var queued := |driver.requests|;
      if Answers(s, tag, r, lock.call.output) {
        ExchangeGoes(s, irp, id, addr, lock, tag, r, c);
      } else {
        ExchangeFails(s, irp, id, addr, lock, tag, r);
      }
      driver.DispatchServerIORequest(irp, tag, r, id, true, true);
      if |driver.requests| > queued {
        driver.DispatchClientRequest(c.irp, c.addr, true, true);
      }
      status := driver.done[|driver.done| - 1].status;
    }

    // Exchanges buffers until the driver does not refuse for size, doubling the buffer each
    // time; the first carries a response, the others are cleared. A response that is not
    // taken ends the loop at once. After one that is, the next request is the first that
    // waits or, if none does, the one that comes; if it is of up to 2 GiB, the loop ends with
    // that request in the buffer, and the driver refused it exactly as often as the buffer
    // had to grow.
    method DrvFlush(driver: ObjectContext, id: nat, tag: nat, r: Response, c: Item, ghost addr: nat, ghost lock: Irp)
      returns (ok: bool, retries: nat)
      requires Ready(driver.View(Idle), c) && HasBuffer(driver.View(Idle), addr, key, lock)
      requires lock.call.output == H.Region(bufferSize) == |r.payload| + HEADER_SIZE
      requires 0 < bufferSize && bufferSize % H.PAGE == 0 && bufferSize + HEADER_SIZE < ULONG_BOUND
      requires HEADER_SIZE <= Need(Upcoming(driver.received, c).irp.call) <= HEADER_SIZE + 0x8000_0000
      modifies this`bufferSize, driver
      ensures ok <==> Answers(old(driver.View(Idle)), tag, r, lock.call.output)
      ensures ok ==>
                && DeliveredSo(Met(Responded(old(driver.View(Idle)), tag, r, lock.call.output), c), driver.View(Idle), retries)
                && bufferSize == H.SizeAfter(old(bufferSize), retries)
                && H.Enough(old(bufferSize), 0, retries, Need(old(Upcoming(driver.received, c).irp.call)))
                && (retries > 0 ==> old(bufferSize) * PowerOfTwo(retries - 1) < Need(old(Upcoming(driver.received, c).irp.call)) - HEADER_SIZE)
    {
      hide Need, HasBuffer, RefusedSo, DeliveredSo, Exchanged, LockRun, H.Rounded, H.Region, H.Enough, H.Lockable, PowerOfTwo, Answers,
        Responded;
      ghost var first, s := bufferSize, driver.View(Idle);
      Keyed(s, addr, key, lock);
      ghost var taken, need := Answers(s, tag, r, lock.call.output), Need(Upcoming(driver.received, c).irp.call);
      H.PowerOfNone();
      ghost var n := H.DoublingsSuffice(first, 0, need);
      H.EnoughNext(first, 0, n, need);
      ghost var s0 := s;
      if taken {
        s0 := Met(Responded(s, tag, r, lock.call.output), c);
        MeetsUpcoming(s, tag, r, c, addr, key, lock);
        Unrefused(s0);
        Turn(s0, s0, Irp(id, Call.Exchange(0, key)), addr, lock, 0);
      }
      var status := Exchange(driver, id, tag, r, c, addr, lock);
      var next := id;
      retries := 0;
      while status == TooSmall
        invariant retries <= n && H.Enough(first, retries, n, need) && H.Lockable(first, retries, n)
        invariant bufferSize == H.SizeAfter(first, retries)
        invariant status == if !taken then Invalid else if retries < n then TooSmall else Success
        invariant taken ==>
                    if retries < n then RefusedSo(s0, driver.View(Idle), retries + 1) && driver.memories == []
                    else DeliveredSo(s0, driver.View(Idle), retries)
        decreases n - retries
      {
        H.EnoughNext(first, retries, n, need);
        bufferSize := bufferSize * 2 % ULONG_BOUND;
        ghost var before := driver.View(Idle);
        var locked := AllocDrvBuffer(driver, next + 1);
        retries := retries + 1;
        H.EnoughNext(first, retries, n, need);
        LockIs(before, locked, next + 1, s0, retries);
        next := next + 2;
        ghost var view := driver.View(Idle);
        Turn(s0, view, Irp(next, Call.Exchange(0, key)), next - 1, locked, retries);
        StillFirst(s0, view, c, retries);
        ClearedTaken(view, locked.call.output);
        status := Exchange(driver, next, 0, Cleared(locked.call.output), c, next - 1, locked);
      }
      ok := status == Success || status == NotExist;
    }
  }

  // The request that the exchange will bring.
  function Upcoming(received: seq<Item>, c: Item): Item {
    if received != [] then received[0] else c
  }

  // The state in which it does.
  predicate Arrived(s: State, tag: nat, r: Response, c: Item, addr: nat, key: seq<Byte>, lock: Irp)
    requires lock.call.Lock? && |r.payload| + HEADER_SIZE == lock.call.output && Answers(s, tag, r, lock.call.output)
  {
    var s0 := Met(Responded(s, tag, r, lock.call.output), c);
    FirstWaits(s0) && HasBuffer(s0, addr, key, lock) && s0.received[0] == Upcoming(s.received, c)
  }

  lemma MeetsUpcoming(s: State, tag: nat, r: Response, c: Item, addr: nat, key: seq<Byte>, lock: Irp)
    requires Ready(s, c) && HasBuffer(s, addr, key, lock) && |r.payload| + HEADER_SIZE == lock.call.output
    requires Answers(s, tag, r, lock.call.output)
    ensures Arrived(s, tag, r, c, addr, key, lock)
  {
    hide Answers, Responded, ClientKind;
    ResponseTaken(s, tag, r, lock.call.output, c);
    RespondedBuffer(s, tag, r, addr, key, lock);
  }

  // Either way the exchange ends with that request.
  lemma ExchangeGoes(s: State, irp: Irp, item: nat, addr: nat, lock: Irp, tag: nat, r: Response, c: Item)
    requires Ready(s, c) && irp.call.Exchange? && irp.call.output == 0 && HasBuffer(s, addr, irp.call.key, lock)
    requires |r.payload| + HEADER_SIZE == lock.call.output && Answers(s, tag, r, lock.call.output)
    ensures BufferSize(s, irp, true) == lock.call.output
    ensures Arrived(s, tag, r, c, addr, irp.call.key, lock)
    ensures var s1, s2 := Responded(s, tag, r, lock.call.output), ServerRun(s, irp, tag, r, item, true, true);
            var s3 := Exchanged(Met(s1, c), irp, addr, lock);
            && s3.done != []
            && (if s.received != [] then s2 == s3 && s2.requests == s.requests
                else s2 == Pending(s1, irp, item) && s.requests == [] && s1.threads == [Idle] && ClientKind(c.irp.call)
                     && ClientRun(s2, c.irp, c.addr, true, true) == s3)
  {
    hide ServerRun, ClientRun, Answers, Responded, ClientKind, Exchanged, HasBuffer, BufferSize;
    Keyed(s, addr, irp.call.key, lock);
    MeetsUpcoming(s, tag, r, c, addr, irp.call.key, lock);
    ResponseTaken(s, tag, r, lock.call.output, c);
    RespondedBuffer(s, tag, r, addr, irp.call.key, lock);
    ExchangedLogs(Met(Responded(s, tag, r, lock.call.output), c), irp, addr, lock);
    if s.received != [] {
      ExchangeIs(s, irp, item, addr, lock, tag, r);
    } else {
      ExchangeWaits(s, irp, item, addr, lock, tag, r, c);
      ArrivalIs(Responded(s, tag, r, lock.call.output), irp, item, addr, lock, c);
    }
  }

  lemma ClearedTaken(s: State, length: nat)
    requires length >= HEADER_SIZE
    ensures |Cleared(length).payload| + HEADER_SIZE == length
    ensures Answers(s, 0, Cleared(length), length) && Responded(s, 0, Cleared(length), length) == s
  {
  }

  lemma ExchangedLogs(s: State, irp: Irp, addr: nat, lock: Irp)
    requires FirstWaits(s) && irp.call.Exchange? && HasBuffer(s, addr, irp.call.key, lock)
    ensures Exchanged(s, irp, addr, lock).done != [] && Exchanged(s, irp, addr, lock).requests == s.requests
  {
    hide Need, RequestLength;
  }

  lemma Keyed(s: State, addr: nat, key: seq<Byte>, lock: Irp)
    requires HasBuffer(s, addr, key, lock)
    ensures key != [] && lock.call.Lock?
  {
  }

  lemma Unrefused(s: State)
    ensures RefusedSo(s, s, 0)
  {
  }

  lemma StillFirst(s0: State, s: State, c: Item, n: nat)
    requires FirstWaits(s0) && RefusedSo(s0, s, n)
    ensures Ready(s, c) && Met(s, c) == s
  {
  }
}
