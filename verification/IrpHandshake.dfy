// The handshake for a request that does not fit the server's buffer: the driver refuses
// and keeps the request, the server comes back with a buffer twice as large.

module IrpHandshake {
  import opened Basics
  import opened Bytes
  import opened IrpQueues
  import opened IrpCounting
  import opened IrpRuns
  import opened IrpTheorems

  const PAGE: nat := 4096

  // The buffer size after alloc_drv_buffer has made whole pages of it and of the header.
  function Rounded(size: nat): nat {
    ((size + HEADER_SIZE + PAGE - 1) / PAGE * PAGE - HEADER_SIZE) % ULONG_BOUND
  }

  // The header and the bytes behind it fill whole pages, and not a page more than needed.
  lemma RoundsUp(size: nat)
    requires size + HEADER_SIZE + PAGE <= ULONG_BOUND
    ensures (Rounded(size) + HEADER_SIZE) % PAGE == 0 && size <= Rounded(size) < size + PAGE
  {
  }

  // The sizes that drv_flush tries: doubled in 32 bits, then rounded up.
  function SizeAfter(size: nat, k: nat): nat {
    if k == 0 then size else Rounded(2 * SizeAfter(size, k - 1) % ULONG_BOUND)
  }

  // The length of the memory that the server locks, header included, in 32 bits.
  function Region(size: nat): nat {
    (HEADER_SIZE + size) % ULONG_BOUND
  }

  // That length after k doublings.
  function Offer(size: nat, k: nat): nat {
    Region(SizeAfter(size, k))
  }

  // The least number of doublings, from k on, that makes the buffer large enough.
  predicate Enough(size: nat, k: nat, n: nat, need: nat) {
    k <= n && Offer(size, n) >= need && forall j :: k <= j < n ==> Offer(size, j) < need
  }

  // Every buffer on the way is long enough to be locked.
  predicate Lockable(size: nat, k: nat, n: nat) {
    forall j :: k <= j <= n ==> HEADER_SIZE <= Offer(size, j)
  }

  lemma EnoughNext(size: nat, k: nat, n: nat, need: nat)
    requires Enough(size, k, n, need)
    ensures k <= n && (Offer(size, k) < need <==> k < n)
    ensures k < n ==> Enough(size, k + 1, n, need)
    ensures Lockable(size, k, n) ==> HEADER_SIZE <= Offer(size, k) && (k < n ==> Lockable(size, k + 1, n))
  {
    hide Offer;
  }

  lemma RoundedPages(size: nat)
    requires size % PAGE == 0 && size < ULONG_BOUND
    ensures Rounded(size) == size
  {
  }

  lemma DoublePages(half: nat)
    requires half % PAGE == 0
    ensures 2 * half % PAGE == 0
  {
    assert half == PAGE * (half / PAGE);
    assert 2 * half == PAGE * (2 * (half / PAGE));
  }

  lemma NextSize(half: nat)
    requires half % PAGE == 0 && half <= 0x8000_0000
    ensures 2 * half % PAGE == 0
    ensures Rounded(2 * half % ULONG_BOUND) == if half < 0x8000_0000 then 2 * half else 0
  {
    hide Rounded;
    DoublePages(half);
    if half < 0x8000_0000 {
      RoundedPages(2 * half);
    } else {
      RoundedPages(0);
    }
  }

  // Sizes of whole pages double exactly, until they leave 32 bits.
  lemma {:induction false} SizesDouble(size: nat, k: nat)
    requires size % PAGE == 0 && size * PowerOfTwo(k) < ULONG_BOUND
    ensures SizeAfter(size, k) == size * PowerOfTwo(k) && SizeAfter(size, k) % PAGE == 0
  {
    hide Rounded;
    if k > 0 {
      Doubled(size, k - 1);
      SizesDouble(size, k - 1);
      NextSize(SizeAfter(size, k - 1));
    }
  }

  lemma PowerOfNone()
    ensures PowerOfTwo(0) == 1
  {
  }

  lemma Doubled(first: nat, k: nat)
    ensures first * PowerOfTwo(k + 1) == 2 * (first * PowerOfTwo(k))
  {
    assert PowerOfTwo(k + 1) == 2 * PowerOfTwo(k);
  }

  // A buffer whose size is a power of two, as the default is, grows to any length up to
  // 2 GiB, and to no other.
  lemma GrowsExactlyTo(j: nat, length: nat)
    requires 12 <= j < 32
    ensures (exists k :: SizeAfter(PowerOfTwo(j), k) >= length) <==> length <= 0x8000_0000
  {
    Powers(j);
    var size := PowerOfTwo(j);
    if length <= 0x8000_0000 {
      Sum(j, 31 - j);
      Pages(j);
      Powers(31);
      SizesDouble(size, 31 - j);
      assert SizeAfter(size, 31 - j) >= length;
    }
    forall k ensures SizeAfter(size, k) <= 0x8000_0000 {
      NeverMore(j, k);
    }
  }

  lemma {:induction false} Sum(j: nat, k: nat)
    ensures PowerOfTwo(j) * PowerOfTwo(k) == PowerOfTwo(j + k)
  {
    if k > 0 {
      Sum(j, k - 1);
      Doubled(PowerOfTwo(j), k - 1);
    }
  }

  lemma Powers(j: nat)
    requires j <= 31
    ensures PowerOfTwo(j) <= 0x8000_0000 == PowerOfTwo(31)
  {
    PowerOf31();
    Sum(j, 31 - j);
    Larger(PowerOfTwo(j), PowerOfTwo(31 - j));
  }

  lemma Larger(a: nat, b: nat)
    requires b > 0
    ensures a <= a * b
  {
  }

  lemma PowerOf31()
    ensures PowerOfTwo(31) == 0x8000_0000
  {
    assert PowerOfTwo(4) == 16;
    assert PowerOfTwo(8) == 256;
    assert PowerOfTwo(12) == 4096;
    Sum(12, 12);
    Sum(24, 4);
    assert PowerOfTwo(31) == 2 * PowerOfTwo(30) == 4 * PowerOfTwo(29) == 8 * PowerOfTwo(28);
  }

  lemma Pages(j: nat)
    requires j >= 12
    ensures PowerOfTwo(j) % PAGE == 0
  {
    assert PowerOfTwo(4) == 16;
    assert PowerOfTwo(8) == 256;
    assert PowerOfTwo(12) == PAGE;
    Sum(12, j - 12);
    Multiple(PowerOfTwo(j - 12));
  }

  lemma Multiple(n: nat)
    ensures PAGE * n % PAGE == 0
  {
  }

  // Past 2 GiB the doubling leaves 32 bits and the size stays zero.
  lemma {:induction false} NeverMore(j: nat, k: nat)
    requires 12 <= j < 32
    ensures SizeAfter(PowerOfTwo(j), k) == (if j + k < 32 then PowerOfTwo(j + k) else 0)
    ensures SizeAfter(PowerOfTwo(j), k) <= 0x8000_0000
  {
    hide Rounded, PowerOfTwo;
    if j + k < 32 {
      Powers(j + k);
    }
    if k > 0 {
      NeverMore(j, k - 1);
      var half := SizeAfter(PowerOfTwo(j), k - 1);
      if j + k - 1 < 32 {
        Pages(j + k - 1);
        TwoTimes(j + k - 1);
        Powers31(j + k - 1);
      }
      NextSize(half);
    }
  }

  lemma TwoTimes(j: nat)
    ensures PowerOfTwo(j + 1) == 2 * PowerOfTwo(j)
  {
  }

  lemma Powers31(j: nat)
    requires j <= 31
    ensures PowerOfTwo(j) <= 0x8000_0000
    ensures PowerOfTwo(j) < 0x8000_0000 <==> j < 31
  {
    Powers(j);
    Powers(31);
    if j < 31 {
      Powers(j + 1);
      TwoTimes(j);
    }
  }

  // One round of the handshake, by a thread that brings in a memory lock and then an
  // exchange with the same key, and a cleared response header.
  datatype Round = Round(lock: Irp, exchange: Irp, first: nat, second: nat)

  ghost predicate Ready(s: State, t: nat) {
    && Inv(s) && s.server && t < |s.threads| && s.threads[t] == Idle
    && s.memories == [] && s.received != []
  }

  ghost predicate Supplied(s: State, r: Round) {
    && r.lock !in s.issued && r.exchange !in s.issued && r.lock != r.exchange
    && r.lock.call.Lock? && r.exchange.call.Exchange?
    && r.exchange.call.output == 0 && r.exchange.call.key == r.lock.call.key != []
    && HEADER_SIZE <= r.lock.call.output
    && r.first != r.second && Fresh(s, r.first) && Fresh(s, r.second)
  }

  predicate Leads(s: State, t: nat, a: Action, s': State) {
    Enabled(s, t, a) && Next(s, t, a) == s'
  }

  lemma Chain(s: State, t: nat, a: Action, s': State, rest: seq<Event>)
    requires Leads(s, t, a, s') && Possible(s', rest)
    ensures Possible(s, [Event(t, a)] + rest)
    ensures After(s, [Event(t, a)] + rest) == After(s', rest)
  {
    hide Enabled, Next;
    assert ([Event(t, a)] + rest)[1..] == rest;
  }

  function Buffer(r: Round): Memory {
    Memory(r.first, r.lock)
  }

  function Size(r: Round): nat
    requires r.lock.call.Lock?
  {
    r.lock.call.output
  }

  // The state in which the exchange holds the buffer of its round.
  function Locked(s: State, t: nat, r: Round): State
    requires t < |s.threads| && r.lock.call.Lock?
  {
    Move(s, t, Tagged(r.exchange, Buffer(r), Size(r))).(issued := s.issued + {r.lock} + {r.exchange})
  }

  lemma LockRound(s: State, t: nat, r: Round) returns (s1: State, s2: State)
    requires Ready(s, t) && Supplied(s, r)
    ensures Leads(s, t, LockCall(r.lock, r.first, true, true), s1)
    ensures Leads(s1, t, QueueLock, s2)
    ensures s2 == s.(memories := [Item(r.first, r.lock, NoMemory, true, 0)], issued := s.issued + {r.lock})
  {
    hide Inv, Fresh;
    s1 := Next(s, t, LockCall(r.lock, r.first, true, true));
    s2 := Next(s1, t, QueueLock);
    assert s2.threads == s.threads;
    assert s2.memories == [Item(r.first, r.lock, NoMemory, true, 0)];
  }

  lemma LockedByExchange(s: State, t: nat, r: Round, s2: State)
    requires Ready(s, t) && Supplied(s, r)
    requires s2 == s.(memories := [Item(r.first, r.lock, NoMemory, true, 0)], issued := s.issued + {r.lock})
    ensures Leads(s2, t, ExchangeCall(r.exchange, true), Locked(s, t, r))
  {
    hide Inv, Fresh;
    var item := Item(r.first, r.lock, NoMemory, true, 0);
    assert FindKey([item], r.exchange.call.key) == 0;
    assert Without([item], 0) == [];
  }

  function Empty(r: Round): Response
    requires r.lock.call.Lock? && r.lock.call.output >= HEADER_SIZE
  {
    Response(ReqNull, 0, Same(0), seq(r.lock.call.output - HEADER_SIZE, _ => 0))
  }

  // The exchange brings no response and goes on to the next request.
  lemma EmptyResponse(s: State, t: nat, r: Round) returns (s4: State, s5: State)
    requires Ready(s, t) && Supplied(s, r)
    ensures Leads(Locked(s, t, r), t, ReadTag(0), s4)
    ensures Leads(s4, t, Respond(Empty(r), true), s5)
    ensures s5 == Move(Locked(s, t, r), t, Taking(r.exchange, Buffer(r), Size(r)))
  {
    hide Inv, Fresh, Find;
    s4 := Next(Locked(s, t, r), t, ReadTag(0));
    s5 := Next(s4, t, Respond(Empty(r), true));
    assert s5.threads == s.threads[t := Taking(r.exchange, Buffer(r), Size(r))];
    assert s5.done == s.done;
  }

  lemma FreshInHand(s: State, t: nat, r: Round)
    requires Ready(s, t) && Supplied(s, r)
    ensures Fresh(Move(Locked(s, t, r), t, Taking(r.exchange, Buffer(r), Size(r))), r.second)
  {
    hide Inv;
    var x := At(r.second);
    var pc := Taking(r.exchange, Buffer(r), Size(r));
    assert Move(Locked(s, t, r), t, pc).threads == s.threads[t := pc];
    HandsMove(s.threads, t, pc, x);
  }

  function Carrying(s: State, t: nat, r: Round): State
    requires t < |s.threads| && r.lock.call.Lock? && s.received != []
  {
    Move(s, t, Sending(s.received[0], Item(r.second, r.exchange, Buffer(r), true, Size(r)))).(
      received := s.received[1..], issued := s.issued + {r.lock} + {r.exchange})
  }

  lemma RequestTaken(s: State, t: nat, r: Round, s5: State)
    requires Ready(s, t) && Supplied(s, r)
    requires s5 == Move(Locked(s, t, r), t, Taking(r.exchange, Buffer(r), Size(r)))
    ensures Leads(s5, t, Take(r.second, true), Carrying(s, t, r))
  {
    hide Inv, Fresh, Requeued;
    FreshInHand(s, t, r);
    TakesIt(s, t, r, s5);
  }

  lemma TakesIt(s: State, t: nat, r: Round, s5: State)
    requires t < |s.threads| && s.received != [] && r.lock.call.Lock?
    requires s5 == Move(Locked(s, t, r), t, Taking(r.exchange, Buffer(r), Size(r)))
    ensures DoTake(s5, t, r.second, true) == Carrying(s, t, r)
  {
    hide Requeued;
    assert DoTake(s5, t, r.second, true).threads == Carrying(s, t, r).threads;
  }

  lemma ReadyFacts(s: State, t: nat, r: Round)
    requires Ready(s, t) && Supplied(s, r)
    ensures t < |s.threads| && s.received != [] && r.lock.call.Lock? && HEADER_SIZE <= r.lock.call.output
  {
  }

  // The server's calls of one round, each run to the end of its lock region, and how the
  // transfer ends.
  function RoundRun(t: nat, r: Round, end: seq<Event>): seq<Event>
    requires r.lock.call.Lock? && HEADER_SIZE <= r.lock.call.output
  {
    [Event(t, LockCall(r.lock, r.first, true, true))] + ([Event(t, QueueLock)] + ([Event(t, ExchangeCall(r.exchange, true))]
    + ([Event(t, ReadTag(0))] + ([Event(t, Respond(Empty(r), true))] + ([Event(t, Take(r.second, true))] + end)))))
  }

  function RefusedRun(t: nat, r: Round): seq<Event>
    requires r.lock.call.Lock? && HEADER_SIZE <= r.lock.call.output
  {
    RoundRun(t, r, [Event(t, Transfer(true))])
  }

  function DeliveredRun(t: nat, r: Round): seq<Event>
    requires r.lock.call.Lock? && HEADER_SIZE <= r.lock.call.output
  {
    RoundRun(t, r, [Event(t, Transfer(true))] + [Event(t, Action.Return)])
  }

  lemma RoundStarts(s: State, t: nat, r: Round, end: seq<Event>)
    requires Ready(s, t) && Supplied(s, r) && Possible(Carrying(s, t, r), end)
    ensures Possible(s, RoundRun(t, r, end)) && After(s, RoundRun(t, r, end)) == After(Carrying(s, t, r), end)
  {
    hide Ready, Supplied, Leads, Locked, Carrying, Possible, After;
    ReadyFacts(s, t, r);
    var s1, s2 := LockRound(s, t, r);
    LockedByExchange(s, t, r, s2);
    var s4, s5 := EmptyResponse(s, t, r);
    RequestTaken(s, t, r, s5);
    var run := end;
    Chain(s5, t, Take(r.second, true), Carrying(s, t, r), run);
    run := [Event(t, Take(r.second, true))] + run;
    Chain(s4, t, Respond(Empty(r), true), s5, run);
    run := [Event(t, Respond(Empty(r), true))] + run;
    Chain(Locked(s, t, r), t, ReadTag(0), s4, run);
    run := [Event(t, ReadTag(0))] + run;
    Chain(s2, t, ExchangeCall(r.exchange, true), Locked(s, t, r), run);
    run := [Event(t, ExchangeCall(r.exchange, true))] + run;
    Chain(s1, t, QueueLock, s2, run);
    run := [Event(t, QueueLock)] + run;
    Chain(s, t, LockCall(r.lock, r.first, true, true), s1, run);
    run := [Event(t, LockCall(r.lock, r.first, true, true))] + run;
    assert run == RoundRun(t, r, end);
  }

  // A refused round leaves everything as it was, but for the two completed requests of
  // the server: the client request is still the first, and the memory is unlocked.
  function Refused(s: State, r: Round): State {
    s.(issued := s.issued + {r.lock} + {r.exchange}, done := s.done + [Fail(r.lock, TooSmall), Fail(r.exchange, TooSmall)])
  }

  lemma RoundRefused(s: State, t: nat, r: Round)
    requires Ready(s, t) && Supplied(s, r) && ClientKind(s.received[0].irp.call)
    requires Size(r) < Need(s.received[0].irp.call)
    ensures Possible(s, RefusedRun(t, r)) && After(s, RefusedRun(t, r)) == Refused(s, r)
  {
    hide Ready, Supplied, Leads, Carrying, Refused, Possible, After, Need, RoundRun;
    ReadyFacts(s, t, r);
    Refuses(s, t, r);
    NoMore(Refused(s, r));
    Chain(Carrying(s, t, r), t, Transfer(true), Refused(s, r), []);
    assert [Event(t, Transfer(true))] + [] == [Event(t, Transfer(true))];
    RoundStarts(s, t, r, [Event(t, Transfer(true))]);
  }

  lemma NoMore(s: State)
    ensures Possible(s, []) && After(s, []) == s
  {
  }

  lemma Refuses(s: State, t: nat, r: Round)
    requires Ready(s, t) && Supplied(s, r) && ClientKind(s.received[0].irp.call)
    requires Size(r) < Need(s.received[0].irp.call)
    ensures Leads(Carrying(s, t, r), t, Transfer(true), Refused(s, r))
  {
    hide Inv, Fresh, Need;
    assert [s.received[0]] + s.received[1..] == s.received;
    assert Next(Carrying(s, t, r), t, Transfer(true)).threads == s.threads;
  }

  // A round that fits delivers the first request and unlocks nothing.
  function Delivered(s: State, t: nat, r: Round): State
    requires t < |s.threads| && s.received != []
  {
    var client := s.received[0];
    s.(issued := s.issued + {r.lock} + {r.exchange}, received := s.received[1..], sent := s.sent + [client],
       left := s.left + [client.irp], memories := [Item(r.first, r.lock, NoMemory, true, 0)],
       done := s.done + [Completion(r.exchange, Success, RequestLength(client.irp.call), Request(client.addr, client.irp))])
  }

  lemma Delivers(s: State, t: nat, r: Round) returns (s7: State)
    requires Ready(s, t) && Supplied(s, r) && ClientKind(s.received[0].irp.call)
    requires Size(r) >= Need(s.received[0].irp.call)
    ensures Leads(Carrying(s, t, r), t, Transfer(true), s7) && Leads(s7, t, Action.Return, Delivered(s, t, r))
  {
    hide Inv, Fresh, Need, RequestLength;
    s7 := Next(Carrying(s, t, r), t, Transfer(true));
    assert Next(s7, t, Action.Return).threads == s.threads;
    assert Next(s7, t, Action.Return).memories == [Item(r.first, r.lock, NoMemory, true, 0)];
  }

  lemma RoundDelivered(s: State, t: nat, r: Round)
    requires Ready(s, t) && Supplied(s, r) && ClientKind(s.received[0].irp.call)
    requires Size(r) >= Need(s.received[0].irp.call)
    ensures Possible(s, DeliveredRun(t, r)) && After(s, DeliveredRun(t, r)) == Delivered(s, t, r)
  {
    hide Ready, Supplied, Leads, Carrying, Delivered, Possible, After, Need, RoundRun;
    ReadyFacts(s, t, r);
    var s7 := Delivers(s, t, r);
    NoMore(Delivered(s, t, r));
    Chain(s7, t, Action.Return, Delivered(s, t, r), []);
    assert [Event(t, Action.Return)] + [] == [Event(t, Action.Return)];
    Chain(Carrying(s, t, r), t, Transfer(true), s7, [Event(t, Action.Return)]);
    RoundStarts(s, t, r, [Event(t, Transfer(true))] + [Event(t, Action.Return)]);
  }

  // The rounds of one drv_flush: numbered requests and addresses from a supply that is
  // not in use, and a buffer that is one doubling larger each time.
  function RoundAt(key: seq<Byte>, size: nat, supply: nat): Round {
    Round(Irp(supply, Lock(Region(size), key)), Irp(supply + 1, Exchange(0, key)), supply + 1, supply + 2)
  }

  ghost predicate Unused(s: State, supply: nat) {
    && (forall irp :: irp in s.issued ==> irp.id < supply)
    && (forall a: nat :: a > supply ==> Fresh(s, a))
  }

  lemma SuppliedFrom(s: State, key: seq<Byte>, size: nat, supply: nat)
    requires Unused(s, supply) && key != [] && HEADER_SIZE <= Region(size)
    ensures Supplied(s, RoundAt(key, size, supply))
  {
    hide Fresh, Region;
  }

  lemma ReadyAgain(s: State, t: nat, key: seq<Byte>, size: nat, supply: nat, run: seq<Event>)
    requires Ready(s, t) && Unused(s, supply) && Possible(s, run)
    requires After(s, run) == Refused(s, RoundAt(key, size, supply))
    ensures var s' := Refused(s, RoundAt(key, size, supply)); Ready(s', t) && Unused(s', supply + 2)
  {
    hide Unused, Possible, After;
    InvAfter(s, run);
    UnusedAgain(s, key, size, supply);
    hide Inv;
  }

  lemma UnusedAgain(s: State, key: seq<Byte>, size: nat, supply: nat)
    requires Unused(s, supply)
    ensures Unused(Refused(s, RoundAt(key, size, supply)), supply + 2)
  {
    var r := RoundAt(key, size, supply);
    forall a: nat | a > supply + 2 ensures Fresh(Refused(s, r), a) {
      assert Fresh(s, a);
      RefusedKeepsFresh(s, r, a);
    }
  }

  lemma RefusedKeepsFresh(s: State, r: Round, a: nat)
    requires Fresh(s, a)
    ensures Fresh(Refused(s, r), a)
  {
    var d := [Fail(r.lock, TooSmall), Fail(r.exchange, TooSmall)];
    NoAddress(d, At(a));
    DoneAppend(s.done, d, At(a));
  }

  lemma {:induction false} RunsCompose(s: State, run: seq<Event>, rest: seq<Event>)
    requires Possible(s, run) && Possible(After(s, run), rest)
    ensures Possible(s, run + rest) && After(s, run + rest) == After(After(s, run), rest)
    decreases run
  {
    hide Enabled, Next;
    if run == [] {
      assert run + rest == rest;
    } else {
      assert (run + rest)[0] == run[0] && (run + rest)[1..] == run[1..] + rest;
      RunsCompose(Next(s, run[0].t, run[0].a), run[1..], rest);
    }
  }

  // The rounds from the buffer after i doublings to that after n.
  function HandshakeRun(t: nat, key: seq<Byte>, size: nat, i: nat, n: nat, supply: nat): seq<Event>
    requires i <= n && Lockable(size, i, n)
    decreases n - i
  {
    assert HEADER_SIZE <= Offer(size, i);
    var r := RoundAt(key, SizeAfter(size, i), supply);
    if i == n then DeliveredRun(t, r) else RefusedRun(t, r) + HandshakeRun(t, key, size, i + 1, n, supply + 2)
  }

  // The handshake ends: if the buffer fits after n doublings and not before, the server
  // gets the first waiting request in the round after n refusals, and every refusal on
  // the way left that request first in its queue and the memory unlocked.
  lemma {:induction false} HandshakeDelivers(s: State, t: nat, key: seq<Byte>, size: nat, i: nat, n: nat, supply: nat)
    requires Ready(s, t) && Unused(s, supply) && key != [] && ClientKind(s.received[0].irp.call)
    requires i <= n && Enough(size, i, n, Need(s.received[0].irp.call)) && Lockable(size, i, n)
    ensures var run := HandshakeRun(t, key, size, i, n, supply);
            Possible(s, run) &&
            var s' := After(s, run);
            && s'.sent == s.sent + [s.received[0]] && s'.received == s.received[1..]
            && s'.left == s.left + [s.received[0].irp]
            && s'.threads == s.threads && s'.requests == s.requests
            && |s'.done| == |s.done| + 2 * (n - i) + 1
            && s'.done[|s'.done| - 1].note == Request(s.received[0].addr, s.received[0].irp)
    decreases n - i
  {
    hide Inv, Fresh, Need, RequestLength, SizeAfter, Region, Possible, After, RefusedRun, DeliveredRun, Enough, Lockable;
    var r := RoundAt(key, SizeAfter(size, i), supply);
    EnoughNext(size, i, n, Need(s.received[0].irp.call));
    SuppliedFrom(s, key, SizeAfter(size, i), supply);
    if i == n {
      RoundDelivered(s, t, r);
    } else {
      RoundRefused(s, t, r);
      ReadyAgain(s, t, key, SizeAfter(size, i), supply, RefusedRun(t, r));
      var s' := Refused(s, r);
      HandshakeDelivers(s', t, key, size, i + 1, n, supply + 2);
      RunsCompose(s, RefusedRun(t, r), HandshakeRun(t, key, size, i + 1, n, supply + 2));
    }
  }

  // The least number of doublings that makes a buffer of whole pages large enough, from k
  // on. The region with its header stays within 32 bits.
  lemma {:induction false} LeastDoublings(size: nat, length: nat, k: nat, i: nat) returns (n: nat)
    requires 0 < size && length <= 0x8000_0000 && k <= i
    requires SizeAfter(size, i) == size * PowerOfTwo(i) && SizeAfter(size, i) + HEADER_SIZE < ULONG_BOUND
    requires SizeAfter(size, i) % PAGE == 0
    requires forall j :: k <= j < i ==> SizeAfter(size, j) < length
    requires i > k ==> size * PowerOfTwo(i - 1) < length
    ensures n >= i && SizeAfter(size, n) >= length && SizeAfter(size, n) + HEADER_SIZE < ULONG_BOUND
    ensures forall j :: k <= j < n ==> SizeAfter(size, j) < length
    ensures n > k ==> size * PowerOfTwo(n - 1) < length
    decreases length - SizeAfter(size, i)
  {
    hide Rounded, PowerOfTwo;
    n := i;
    var half := SizeAfter(size, i);
    if half < length {
      Doubled(size, i);
      NextSize(half);
      Product(size, PowerOfTwo(i));
      BelowInPages(half);
      n := LeastDoublings(size, length, k, i + 1);
    }
  }

  lemma BelowInPages(half: nat)
    requires half % PAGE == 0 && half < 0x8000_0000
    ensures 2 * half + HEADER_SIZE < ULONG_BOUND
  {
  }

  lemma Product(a: nat, b: nat)
    requires a > 0 && b > 0
    ensures a * b > 0
  {
  }

  // A request of up to 2 GiB always gets room, from any buffer of whole pages, and not
  // later than the size that is at least its length.
  lemma DoublingsSuffice(size: nat, k: nat, need: nat) returns (n: nat)
    requires 0 < size && size % PAGE == 0 && size * PowerOfTwo(k) + HEADER_SIZE < ULONG_BOUND
    requires HEADER_SIZE <= need <= HEADER_SIZE + 0x8000_0000
    ensures Enough(size, k, n, need)
    ensures n > k ==> size * PowerOfTwo(n - 1) < need - HEADER_SIZE
    ensures k <= n && Lockable(size, k, n)
  {
    hide SizeAfter, PowerOfTwo;
    SizesDouble(size, k);
    n := LeastDoublings(size, need - HEADER_SIZE, k, k);
  }

  // Whole pages stay whole pages, and doubling them is doubling in 32 bits, with the bits
  // that leave on the left lost.
  lemma {:induction false} SizesWrap(size: nat, k: nat)
    requires size % PAGE == 0 && size < ULONG_BOUND
    ensures SizeAfter(size, k) == size * PowerOfTwo(k) % ULONG_BOUND && SizeAfter(size, k) % PAGE == 0
  {
    hide Rounded, PowerOfTwo;
    if k == 0 {
      PowerOfNone();
    } else {
      SizesWrap(size, k - 1);
      Doubled(size, k - 1);
      DoubledAfterWrap(size * PowerOfTwo(k - 1));
      WrapPages(SizeAfter(size, k - 1));
      RoundedPages(2 * SizeAfter(size, k - 1) % ULONG_BOUND);
    }
  }

  lemma DoubledAfterWrap(x: nat)
    ensures 2 * (x % ULONG_BOUND) % ULONG_BOUND == 2 * x % ULONG_BOUND
  {
  }

  lemma WrapPages(half: nat)
    requires half % PAGE == 0 && half < ULONG_BOUND
    ensures 2 * half % ULONG_BOUND % PAGE == 0
  {
    DoublePages(half);
    assert 2 * half % ULONG_BOUND == if 2 * half < ULONG_BOUND then 2 * half else 2 * half - ULONG_BOUND;
  }

  const ALL_LOST: nat := 20

  // After twenty doublings nothing is left of the size.
  lemma {:induction false} NothingLeft(size: nat, k: nat)
    requires size % PAGE == 0 && size < ULONG_BOUND && k >= ALL_LOST
    ensures SizeAfter(size, k) == 0
    decreases k
  {
    hide Rounded, PowerOfTwo;
    if k == ALL_LOST {
      SizesWrap(size, ALL_LOST);
      WholePages(size);
    } else {
      NothingLeft(size, k - 1);
      RoundedPages(0);
    }
  }

  lemma WholePages(size: nat)
    requires size % PAGE == 0
    ensures size * PowerOfTwo(ALL_LOST) % ULONG_BOUND == 0
  {
    assert PowerOfTwo(4) == 16;
    assert PowerOfTwo(8) == 256;
    Sum(8, 8);
    Sum(16, 4);
    hide PowerOfTwo;
    assert PowerOfTwo(ALL_LOST) == 0x10_0000;
    assert size == PAGE * (size / PAGE);
    assert size * 0x10_0000 == ULONG_BOUND * (size / PAGE);
    Zeroes(size / PAGE);
  }

  lemma Zeroes(q: nat)
    ensures ULONG_BOUND * q % ULONG_BOUND == 0
  {
  }

  // The longest region that a server reaches from k doublings on.
  function Greatest(size: nat, k: nat): nat
    decreases ALL_LOST - k
  {
    if k >= ALL_LOST then Offer(size, k) else Max(Offer(size, k), Greatest(size, k + 1))
  }

  lemma {:induction false} GreatestReached(size: nat, k: nat) returns (n: nat)
    ensures n >= k && Offer(size, n) == Greatest(size, k)
    decreases ALL_LOST - k
  {
    hide Offer;
    n := k;
    if k < ALL_LOST && Offer(size, k) < Greatest(size, k + 1) {
      n := GreatestReached(size, k + 1);
    }
  }

  lemma {:induction false} GreatestBounds(size: nat, k: nat, n: nat)
    requires size % PAGE == 0 && size < ULONG_BOUND && k <= n
    ensures Offer(size, n) <= Greatest(size, k)
    decreases ALL_LOST - k
  {
    hide SizeAfter;
    if k >= ALL_LOST {
      NothingLeft(size, k);
      NothingLeft(size, n);
    } else if n > k {
      GreatestBounds(size, k + 1, n);
    }
  }

  // From any buffer of whole pages, some number of doublings is enough if and only if the
  // request needs no more than the longest region, which is one of the next twenty.
  lemma EnoughExactly(size: nat, k: nat, need: nat)
    requires size % PAGE == 0 && size < ULONG_BOUND
    ensures (exists n :: Enough(size, k, n, need)) <==> need <= Greatest(size, k)
  {
    hide Offer, Greatest;
    if need <= Greatest(size, k) {
      var n := GreatestReached(size, k);
      var least := LeastEnough(size, k, k, n, need);
      assert Enough(size, k, least, need);
    }
    forall n | Enough(size, k, n, need) ensures need <= Greatest(size, k) {
      GreatestBounds(size, k, n);
    }
  }

  lemma {:induction false} LeastEnough(size: nat, k: nat, i: nat, n: nat, need: nat) returns (least: nat)
    requires k <= i <= n && Offer(size, n) >= need && forall j :: k <= j < i ==> Offer(size, j) < need
    ensures Enough(size, k, least, need)
    decreases n - i
  {
    hide Offer;
    least := i;
    if Offer(size, i) < need {
      least := LeastEnough(size, k, i + 1, n, need);
    }
  }
}
