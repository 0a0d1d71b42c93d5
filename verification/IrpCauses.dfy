// Why each request to the driver was completed, and with what: every completion of every run
// goes back to one event, told by its status.

module IrpCauses {
  import opened Basics
  import opened Bytes
  import opened IrpQueues
  import opened IrpRuns
  import opened IrpTheorems

  // A response is for the kind of request that it answers, and its length fits the request
  // and, for a read, the buffer.
  predicate Matches(size: nat, call: Call, r: Response) {
    match call
    case Read(_, length) => r.code == ReqRead && r.length.request <= length && (HEADER_SIZE + r.length.buffer) % QUAD_BOUND <= size
    case Write(_, data) => r.code == ReqWrite && r.length.request <= |data|
    case Zero(_, _) => r.code == ReqZero
    case Trim(_) => r.code == ReqUnmap
    case _ => false
  }

  // The length that the client is told: that of the response for reads and writes, none for
  // zeros, and the size of a count for trims that succeed.
  function Told(call: Call, r: Response): nat {
    match call
    case Read(_, _) => r.length.report
    case Write(_, _) => r.length.report
    case Trim(_) => if r.errorno == 0 then 4 else 0
    case _ => 0
  }

  // A thread answers a request with a response that matches it.
  predicate Answers(s: State, e: Event, irp: Irp) {
    Holds(s, e, irp) && Matches(s.threads[e.t].size, irp.call, e.a.r)
  }

  predicate Holds(s: State, e: Event, irp: Irp) {
    && e.a.Respond? && e.t < |s.threads| && s.threads[e.t].Responding?
    && s.threads[e.t].answered.Some? && s.threads[e.t].answered.value.irp == irp
  }

  // The copy of a read's data needs the client's buffer mapped.
  predicate CopyFails(e: Event, call: Call)
    requires e.a.Respond?
  {
    call.Read? && e.a.r.length.any > 0 && !e.a.mapOk
  }

  predicate InQueue(q: seq<Item>, irp: Irp) {
    exists i :: 0 <= i < |q| && q[i].irp == irp
  }

  // A thread transfers a client's request to an exchange.
  predicate Transfers(s: State, e: Event) {
    e.a.Transfer? && e.t < |s.threads| && s.threads[e.t].Sending? && ClientKind(s.threads[e.t].client.irp.call)
  }

  predicate Small(s: State, e: Event)
    requires Transfers(s, e)
  {
    s.threads[e.t].server.size < Need(s.threads[e.t].client.irp.call)
  }

  // The copy of a write's data into the server's buffer needs it mapped as well.
  predicate Unreadable(s: State, e: Event)
    requires Transfers(s, e)
  {
    var call := s.threads[e.t].client.irp.call;
    !Small(s, e) && call.Write? && call.data != [] && !e.a.mapOk
  }

  // The buffer for an exchange: of its own, which must be mapped, or one locked under its key.
  predicate OwnUnmapped(irp: Irp, mapOk: bool) {
    irp.call.Exchange? && irp.call.output > 0 && !mapOk
  }

  predicate LockedUnder(irp: Irp, key: seq<Byte>) {
    irp.call.Lock? && irp.call.key == key
  }

  predicate NoBuffer(memories: seq<Item>, irp: Irp) {
    && irp.call.Exchange? && irp.call.output == 0
    && (irp.call.key == [] || forall i :: 0 <= i < |memories| ==> !LockedUnder(memories[i].irp, irp.call.key))
  }

  // An exchange that waited looks for its buffer when a client's request has come.
  predicate Reserves(s: State, e: Event) {
    e.a.Reserve? && e.t < |s.threads| && s.threads[e.t].Sending?
  }

  // Why a client's request is completed.
  predicate ClientCause(s: State, e: Event, c: Completion) {
    match c.status
    case Success => Answers(s, e, c.irp) && e.a.r.errorno == 0 && !CopyFails(e, c.irp.call) && c.length == Told(c.irp.call, e.a.r)
    case DeviceError =>
      && Holds(s, e, c.irp)
      && (if Answers(s, e, c.irp) then e.a.r.errorno != 0 && !CopyFails(e, c.irp.call) && c.length == Told(c.irp.call, e.a.r)
          else c.length == 0)
    case NotExist =>
      && c.length == 0 && c.note == Nothing
      && (|| (!s.server && e.a.ClientCall? && e.a.irp == c.irp)
          || (!s.server && e.a.Accept? && e.t < |s.threads| && s.threads[e.t].Accepting? && s.threads[e.t].client.irp == c.irp)
          || (e.a.CancelAll? && (InQueue(s.received, c.irp) || InQueue(s.sent, c.irp))))
    case NoResources =>
      && c.length == 0 && c.note == Nothing
      && (|| (s.server && e.a.ClientCall? && e.a.irp == c.irp && !e.a.pool)
          || (Answers(s, e, c.irp) && CopyFails(e, c.irp.call))
          || (Transfers(s, e) && s.threads[e.t].client.irp == c.irp && Unreadable(s, e))
          || (Reserves(s, e) && s.threads[e.t].client.irp == c.irp && OwnUnmapped(s.threads[e.t].server.irp, e.a.mapOk)))
    case Invalid =>
      && c.length == 0 && c.note == Nothing
      && Reserves(s, e) && s.threads[e.t].client.irp == c.irp && NoBuffer(s.memories, s.threads[e.t].server.irp)
    case TooSmall => false
  }

  // Why an exchange is.
  predicate ExchangeCause(s: State, e: Event, c: Completion)
    requires c.irp.call.Exchange?
  {
    match c.status
    case Success =>
      && Transfers(s, e) && s.threads[e.t].server.irp == c.irp && !Small(s, e) && !Unreadable(s, e)
      && var client := s.threads[e.t].client;
         && c.note == Request(client.addr, client.irp)
         && c.length == HEADER_SIZE + if client.irp.call.Write? then |client.irp.call.data| else 0
    case TooSmall =>
      && c.length == 0 && c.note == Nothing
      && (|| (e.a.ExchangeCall? && e.a.irp == c.irp && 0 < c.irp.call.output < HEADER_SIZE)
          || (Transfers(s, e) && s.threads[e.t].server.irp == c.irp && Small(s, e)))
    case NotExist => c.length == 0 && c.note == Nothing && e.a.CancelAll? && InQueue(s.requests, c.irp)
    case NoResources =>
      && c.length == 0 && c.note == Nothing
      && (|| (e.a.ExchangeCall? && e.a.irp == c.irp && c.irp.call.output >= HEADER_SIZE && OwnUnmapped(c.irp, e.a.mapOk))
          || (Reserves(s, e) && s.threads[e.t].server.irp == c.irp && OwnUnmapped(c.irp, e.a.mapOk))
          || (Transfers(s, e) && s.threads[e.t].server.irp == c.irp && Unreadable(s, e))
          || (Serves(s, e, c.irp) && s.threads[e.t].answered.Some?
              && var irp := s.threads[e.t].answered.value.irp; Answers(s, e, irp) && CopyFails(e, irp.call))
          || (e.a.Take? && !e.a.pool && e.t < |s.threads| && s.threads[e.t].Taking? && s.threads[e.t].irp == c.irp))
    case Invalid =>
      && c.length == 0 && c.note == Nothing
      && (|| (e.a.ExchangeCall? && e.a.irp == c.irp && NoBuffer(s.memories, c.irp))
          || (Reserves(s, e) && s.threads[e.t].server.irp == c.irp && NoBuffer(s.memories, c.irp))
          || (e.a.ReadTag? && e.a.tag != 0 && e.t < |s.threads| && s.threads[e.t].Tagged? && s.threads[e.t].irp == c.irp
              && forall i :: 0 <= i < |s.sent| ==> s.sent[i].addr != e.a.tag)
          || (Serves(s, e, c.irp) && BadResponse(s, e)))
    case DeviceError => false
  }

  predicate Serves(s: State, e: Event, irp: Irp) {
    e.a.Respond? && e.t < |s.threads| && s.threads[e.t].Responding? && s.threads[e.t].irp == irp
  }

  predicate BadResponse(s: State, e: Event)
    requires e.a.Respond? && e.t < |s.threads| && s.threads[e.t].Responding?
  {
    match s.threads[e.t].answered
    case None => e.a.r.code != ReqInfo && e.a.r.code != ReqNull
    case Some(item) => !Matches(s.threads[e.t].size, item.irp.call, e.a.r)
  }

  // And why a memory lock is: it stays with the driver until it is refused together with an
  // exchange, or until the closing notice.
  predicate LockCause(s: State, e: Event, c: Completion)
    requires c.irp.call.Lock?
  {
    match c.status
    case Success => c.length == HEADER_SIZE && c.note == Close && e.a.CancelAll? && InQueue(s.memories, c.irp)
    case TooSmall =>
      && c.length == 0 && c.note == Nothing
      && (|| (e.a.LockCall? && e.a.irp == c.irp && c.irp.call.output < HEADER_SIZE)
          || (Transfers(s, e) && s.threads[e.t].server.memory.Memory? && s.threads[e.t].server.memory.irp == c.irp && Small(s, e)))
    case NoResources =>
      c.length == 0 && c.note == Nothing && e.a.LockCall? && e.a.irp == c.irp && c.irp.call.output >= HEADER_SIZE && !(e.a.mapOk && e.a.pool)
    case _ => false
  }

  predicate Caused(s: State, e: Event, c: Completion) {
    match c.irp.call
    case Exchange(_, _) => ExchangeCause(s, e, c)
    case Lock(_, _) => LockCause(s, e, c)
    case _ => ClientCause(s, e, c)
  }

  // The log, with what a thread that puts a buffer back has still to log.
  function Pending(pc: Pc): seq<Completion> {
    if pc.Returning? then pc.last else []
  }

  function Log(s: State, t: nat): seq<Completion>
    requires t < |s.threads|
  {
    s.done + Pending(s.threads[t])
  }

  predicate AllCaused(s: State, e: Event, d: seq<Completion>) {
    forall i :: 0 <= i < |d| ==> Caused(s, e, d[i])
  }

  // A step of thread t adds d.
  predicate Adds(s: State, s': State, t: nat, d: seq<Completion>)
    requires t < |s.threads|
  {
    && |s'.threads| == |s.threads| && (forall u :: 0 <= u < |s.threads| && u != t ==> s'.threads[u] == s.threads[u])
    && Log(s', t) == Log(s, t) + d
  }

  lemma CausesOfCall(s: State, t: nat, a: Action) returns (d: seq<Completion>)
    requires Enabled(s, t, a) && (a.ClientCall? || a.LockCall? || a.QueueLock? || a.Disconnect?)
    ensures Adds(s, Next(s, t, a), t, d) && AllCaused(s, Event(t, a), d)
  {
    hide Fresh, Reserved, Taken, TakenSize, Rest, Small, Unreadable, BadResponse;
    d := Next(s, t, a).done[|s.done|..];
  }

  lemma CausesOfAccept(s: State, t: nat) returns (d: seq<Completion>)
    requires Typed(s) && Enabled(s, t, Accept)
    ensures Adds(s, DoAccept(s, t), t, d) && AllCaused(s, Event(t, Accept), d)
  {
    hide Typed, Fresh;
    HandTyped(s, t);
    d := if s.server then [] else [Fail(s.threads[t].client.irp, NotExist)];
  }

  // Why an exchange gets no buffer.
  lemma DeniedIs(memories: seq<Item>, irp: Irp, mapOk: bool)
    requires irp.call.Exchange? && Reserved(memories, irp, mapOk).Denied?
    ensures match Reserved(memories, irp, mapOk).status
            case NoResources => OwnUnmapped(irp, mapOk)
            case Invalid => NoBuffer(memories, irp)
            case _ => false
  {
  }

  lemma CausesOfExchange(s: State, t: nat, irp: Irp, mapOk: bool) returns (d: seq<Completion>)
    requires Enabled(s, t, ExchangeCall(irp, mapOk))
    ensures Adds(s, DoExchangeCall(s, t, irp, mapOk), t, d) && AllCaused(s, Event(t, ExchangeCall(irp, mapOk)), d)
  {
    hide Fresh, Reserved, Taken, TakenSize, Rest, NoBuffer;
    var r := Reserved(s.memories, irp, mapOk);
    if 0 < irp.call.output < HEADER_SIZE {
      d := [Fail(irp, TooSmall)];
    } else if r.Denied? {
      DeniedIs(s.memories, irp, mapOk);
      d := [Fail(irp, r.status)];
    } else {
      d := [];
    }
  }

  lemma CausesOfReserve(s: State, t: nat, mapOk: bool) returns (d: seq<Completion>)
    requires Typed(s) && Enabled(s, t, Action.Reserve(mapOk))
    ensures Adds(s, DoReserve(s, t, mapOk), t, d) && AllCaused(s, Event(t, Action.Reserve(mapOk)), d)
  {
    hide Typed, Fresh, Reserved, Taken, TakenSize, Rest, NoBuffer;
    HandTyped(s, t);
    var client, server := s.threads[t].client, s.threads[t].server;
    var r := Reserved(s.memories, server.irp, mapOk);
    if r.Denied? {
      DeniedIs(s.memories, server.irp, mapOk);
      d := [Fail(client.irp, r.status), Fail(server.irp, r.status)];
    } else {
      d := [];
    }
  }

  lemma CausesOfTransfer(s: State, t: nat, mapOk: bool) returns (d: seq<Completion>)
    requires Typed(s) && Enabled(s, t, Transfer(mapOk))
    ensures Adds(s, DoTransfer(s, t, mapOk), t, d) && AllCaused(s, Event(t, Transfer(mapOk)), d)
  {
    hide Typed, Fresh, Need;
    HandTyped(s, t);
    var client, server := s.threads[t].client, s.threads[t].server;
    if server.size < Need(client.irp.call) {
      d := if server.memory.Memory? then [Fail(server.memory.irp, TooSmall), Fail(server.irp, TooSmall)] else [Fail(server.irp, TooSmall)];
    } else if client.irp.call.Write? && client.irp.call.data != [] && !mapOk {
      d := [Fail(client.irp, NoResources), Fail(server.irp, NoResources)];
    } else {
      d := [Completion(server.irp, Success, RequestLength(client.irp.call), Request(client.addr, client.irp))];
    }
  }

  lemma CausesOfTag(s: State, t: nat, tag: nat) returns (d: seq<Completion>)
    requires Typed(s) && Enabled(s, t, ReadTag(tag))
    ensures Adds(s, DoReadTag(s, t, tag), t, d) && AllCaused(s, Event(t, ReadTag(tag)), d)
  {
    hide Typed, Fresh, Without;
    HandTyped(s, t);
    d := if tag != 0 && Find(s.sent, tag) == |s.sent| then [Fail(s.threads[t].irp, Invalid)] else [];
  }

  // What a response does to the request that it answers.
  lemma JudgeCauses(s: State, t: nat, r: Response, mapOk: bool)
    requires t < |s.threads| && s.threads[t].Responding? && HandOk(s.threads[t]) && |r.payload| + HEADER_SIZE == s.threads[t].size
    ensures var v, e := Judge(s.threads[t].size, s.threads[t].answered, r, mapOk), Event(t, Respond(r, mapOk));
            && AllCaused(s, e, v.client)
            && (v.Bad? ==> BadResponse(s, e))
            && (v.Unmapped? ==>
                  s.threads[t].answered.Some? && var irp := s.threads[t].answered.value.irp; Answers(s, e, irp) && CopyFails(e, irp.call))
  {
  }

  lemma CausesOfRespond(s: State, t: nat, r: Response, mapOk: bool) returns (d: seq<Completion>)
    requires Typed(s) && Enabled(s, t, Respond(r, mapOk))
    ensures Adds(s, DoRespond(s, t, r, mapOk), t, d) && AllCaused(s, Event(t, Respond(r, mapOk)), d)
  {
    hide Typed, Fresh, Judge, PutBack, Adds, AllCaused, Caused, BadResponse, Answers, CopyFails;
    HandTyped(s, t);
    JudgeCauses(s, t, r, mapOk);
    var pc, e := s.threads[t], Event(t, Respond(r, mapOk));
    var v := Judge(pc.size, pc.answered, r, mapOk);
    if v.Accepted? {
      d := v.client;
      Advances(s, t, d, Taking(pc.irp, pc.memory, pc.size));
    } else {
      var c := Fail(pc.irp, if v.Unmapped? then NoResources else Invalid);
      Fails(s, t, v.client, c, pc.memory);
      RefusalCaused(s, e, c, v);
      OneMore(s, e, v.client, c);
      d := v.client + [c];
    }
  }

  lemma RefusalCaused(s: State, e: Event, c: Completion, v: Verdict)
    requires Serves(s, e, c.irp) && HandOk(s.threads[e.t]) && !v.Accepted?
    requires c == Fail(c.irp, if v.Unmapped? then NoResources else Invalid)
    requires v.Bad? ==> BadResponse(s, e)
    requires v.Unmapped? ==>
               s.threads[e.t].answered.Some? && var irp := s.threads[e.t].answered.value.irp; Answers(s, e, irp) && CopyFails(e, irp.call)
    ensures Caused(s, e, c)
  {
    hide BadResponse, Answers, CopyFails;
  }

  lemma OneMore(s: State, e: Event, d: seq<Completion>, c: Completion)
    requires AllCaused(s, e, d) && Caused(s, e, c)
    ensures AllCaused(s, e, d + [c])
  {
    hide Caused;
  }

  lemma Advances(s: State, t: nat, d: seq<Completion>, pc: Pc)
    requires t < |s.threads| && !s.threads[t].Returning? && !pc.Returning?
    ensures Adds(s, Move(s.(done := s.done + d), t, pc), t, d)
  {
  }

  lemma Fails(s: State, t: nat, d: seq<Completion>, c: Completion, m: Memory)
    requires t < |s.threads| && !s.threads[t].Returning?
    ensures Adds(s, PutBack(s.(done := s.done + d).(done := s.done + d + [c]), t, m, []), t, d + [c])
  {
  }

  lemma CausesOfTake(s: State, t: nat, addr: nat, pool: bool) returns (d: seq<Completion>)
    requires Typed(s) && Enabled(s, t, Take(addr, pool))
    ensures Adds(s, DoTake(s, t, addr, pool), t, d) && AllCaused(s, Event(t, Take(addr, pool)), d)
  {
    hide Typed, Fresh, Requeued;
    HandTyped(s, t);
    d := if pool then [] else [Fail(s.threads[t].irp, NoResources)];
  }

  lemma CausesOfReturn(s: State, t: nat)
    requires Enabled(s, t, Action.Return)
    ensures Adds(s, DoReturn(s, t), t, [])
  {
    hide Fresh, Requeued;
  }

  lemma RequestsCaused(s: State, t: nat)
    requires Typed(s)
    ensures AllCaused(s, Event(t, CancelAll), CancelledQueue(s.requests))
  {
    hide HandOk, ClientItem, LockItem;
    forall i | 0 <= i < |s.requests| ensures Caused(s, Event(t, CancelAll), Cancelled(s.requests[i])) {
      assert InQueue(s.requests, s.requests[i].irp);
    }
  }

  lemma MemoriesCaused(s: State, t: nat)
    requires Typed(s)
    ensures AllCaused(s, Event(t, CancelAll), CancelledQueue(s.memories))
  {
    hide HandOk, ClientItem, ServerItem;
    forall i | 0 <= i < |s.memories| ensures Caused(s, Event(t, CancelAll), Cancelled(s.memories[i])) {
      assert InQueue(s.memories, s.memories[i].irp);
    }
  }

  lemma ClientsCaused(s: State, t: nat, q: seq<Item>)
    requires Typed(s) && (q == s.received || q == s.sent)
    ensures AllCaused(s, Event(t, CancelAll), NotExistQueue(q))
  {
    hide HandOk, ServerItem, LockItem;
    forall i | 0 <= i < |q| ensures Caused(s, Event(t, CancelAll), Fail(q[i].irp, NotExist)) {
      assert InQueue(q, q[i].irp) && ClientItem(q[i]);
    }
  }

  lemma AppendCaused(s: State, e: Event, p: seq<Completion>, q: seq<Completion>)
    requires AllCaused(s, e, p) && AllCaused(s, e, q)
    ensures AllCaused(s, e, p + q)
  {
    hide Caused;
  }

  lemma CausesOfCancel(s: State, t: nat)
    requires Typed(s) && Enabled(s, t, CancelAll)
    ensures Adds(s, DoCancelAll(s, t), t, CancelLog(s)) && AllCaused(s, Event(t, CancelAll), CancelLog(s))
  {
    hide Typed, Fresh, AllCaused, CancelledQueue, NotExistQueue;
    var e := Event(t, CancelAll);
    RequestsCaused(s, t);
    MemoriesCaused(s, t);
    ClientsCaused(s, t, s.received);
    ClientsCaused(s, t, s.sent);
    var u, v := NotExistQueue(s.received), NotExistQueue(s.sent);
    AppendCaused(s, e, u, v);
    AppendCaused(s, e, CancelledQueue(s.memories), u + v);
    AppendCaused(s, e, CancelledQueue(s.requests), CancelledQueue(s.memories) + (u + v));
  }

  lemma StepCauses(s: State, t: nat, a: Action) returns (d: seq<Completion>)
    requires Typed(s) && Enabled(s, t, a)
    ensures t < |s.threads| && Adds(s, Next(s, t, a), t, d) && AllCaused(s, Event(t, a), d)
  {
    hide Typed, Fresh, Adds, Caused, DoClientCall, DoAccept, DoReserve, DoTransfer, DoExchangeCall, DoReadTag, DoRespond, DoTake, DoReturn,
      DoLockCall, DoQueueLock, DoCancelAll, CancelLog;
    match a
    case Reserve(mapOk) => d := CausesOfReserve(s, t, mapOk);
    case Transfer(mapOk) => d := CausesOfTransfer(s, t, mapOk);
    case ReadTag(tag) => d := CausesOfTag(s, t, tag);
    case Respond(r, mapOk) => d := CausesOfRespond(s, t, r, mapOk);
    case Take(addr, pool) => d := CausesOfTake(s, t, addr, pool);
    case Return =>
      CausesOfReturn(s, t);
      d := [];
    case CancelAll =>
      CausesOfCancel(s, t);
      d := CancelLog(s);
    case Accept => d := CausesOfAccept(s, t);
    case ExchangeCall(irp, mapOk) => d := CausesOfExchange(s, t, irp, mapOk);
    case _ => d := CausesOfCall(s, t, a);
  }

  // In the log already, or in the hands of a thread that will log it.
  predicate Logged(s: State, c: Completion) {
    c in s.done || exists t :: 0 <= t < |s.threads| && c in Pending(s.threads[t])
  }

  lemma NewlyLogged(s: State, s': State, t: nat, d: seq<Completion>, c: Completion)
    requires t < |s.threads| && Adds(s, s', t, d) && Logged(s', c) && !Logged(s, c)
    ensures c in d
  {
    if c in s'.done {
      assert c in Log(s', t);
    } else {
      var u :| 0 <= u < |s'.threads| && c in Pending(s'.threads[u]);
      assert u == t && c in Log(s', t);
    }
    assert c !in Log(s, t);
  }

  predicate CausedInRun(s: State, run: seq<Event>, c: Completion)
    requires Possible(s, run)
    decreases run
  {
    run != [] && (Caused(s, run[0], c) || CausedInRun(Next(s, run[0].t, run[0].a), run[1..], c))
  }

  lemma {:induction false} CauseInRun(s: State, run: seq<Event>, c: Completion)
    requires Inv(s) && Possible(s, run) && Logged(After(s, run), c) && !Logged(s, c)
    ensures CausedInRun(s, run, c)
    decreases run
  {
    hide Typed, Conserved, Enabled, Next, Caused, Logged, Adds;
    var s1 := Next(s, run[0].t, run[0].a);
    if Logged(s1, c) {
      var d := StepCauses(s, run[0].t, run[0].a);
      NewlyLogged(s, s1, run[0].t, d, c);
    } else {
      InvPreserved(s, run[0].t, run[0].a);
      CauseInRun(s1, run[1..], c);
    }
  }

  // After any run every completion goes back to an event of the run that explains its
  // status, its length and its note.
  lemma EveryCompletionHasItsCause(n: nat, run: seq<Event>, c: Completion)
    requires Possible(Init(n), run) && c in After(Init(n), run).done
    ensures CausedInRun(Init(n), run, c)
  {
    hide CausedInRun, Caused;
    InitInv(n);
    assert !Logged(Init(n), c);
    CauseInRun(Init(n), run, c);
  }

  // Which steps complete anything: calls that are refused, transfers, responses to a request
  // or bad ones, exchanges that find no memory or no buffer, and cancellations of anything.
  predicate Completes(s: State, t: nat, a: Action)
    requires Enabled(s, t, a)
  {
    match a
    case ClientCall(_, _, pool) => !s.server || !pool
    case Accept => !s.server
    case Reserve(mapOk) => OwnUnmapped(s.threads[t].server.irp, mapOk) || NoBuffer(s.memories, s.threads[t].server.irp)
    case Transfer(_) => true
    case ExchangeCall(irp, mapOk) => 0 < irp.call.output < HEADER_SIZE || OwnUnmapped(irp, mapOk) || NoBuffer(s.memories, irp)
    case ReadTag(tag) => tag != 0 && forall i :: 0 <= i < |s.sent| ==> s.sent[i].addr != tag
    case Respond(_, _) => s.threads[t].answered.Some? || BadResponse(s, Event(t, a))
    case Take(_, pool) => !pool
    case LockCall(irp, _, mapOk, pool) => irp.call.output < HEADER_SIZE || !mapOk || !pool
    case CancelAll => s.requests != [] || s.memories != [] || s.received != [] || s.sent != []
    case _ => false
  }

  lemma ReservedIs(memories: seq<Item>, irp: Irp, mapOk: bool)
    requires irp.call.Exchange?
    ensures Reserved(memories, irp, mapOk).Denied? <==> OwnUnmapped(irp, mapOk) || NoBuffer(memories, irp)
  {
  }

  predicate Grows(s: State, s': State, t: nat) {
    t < |s.threads| == |s'.threads| && |Log(s', t)| > |Log(s, t)|
  }

  lemma CompletesExactly(s: State, t: nat, a: Action)
    requires Typed(s) && Enabled(s, t, a)
    ensures Grows(s, Next(s, t, a), t) <==> Completes(s, t, a)
  {
    hide Typed, Fresh, Log, DoClientCall, DoAccept, DoReserve, DoTransfer, DoExchangeCall, DoReadTag, DoRespond,
      DoTake, DoReturn, DoLockCall, DoQueueLock, DoCancelAll;
    match a
    case Transfer(mapOk) => TransferCompletes(s, t, mapOk);
    case Respond(r, mapOk) => ResponseCompletes(s, t, r, mapOk);
    case _ => OthersComplete(s, t, a);
  }

  lemma OthersComplete(s: State, t: nat, a: Action)
    requires Typed(s) && Enabled(s, t, a) && !a.Transfer? && !a.Respond?
    ensures Grows(s, Next(s, t, a), t) <==> Completes(s, t, a)
  {
    hide Typed, Fresh, Reserved, Taken, TakenSize, Rest, NoBuffer, OwnUnmapped, Requeued, ClientKind, CancelLog, Without;
    match a
    case Reserve(mapOk) => ReservedIs(s.memories, s.threads[t].server.irp, mapOk);
    case ExchangeCall(irp, mapOk) => ReservedIs(s.memories, irp, mapOk);
    case CancelAll => CancelLength(s);
    case _ =>
  }

  lemma TransferCompletes(s: State, t: nat, mapOk: bool)
    requires Typed(s) && Enabled(s, t, Transfer(mapOk))
    ensures Grows(s, DoTransfer(s, t, mapOk), t)
  {
    hide Typed, Fresh, Need, RequestLength, ClientKind;
    HandTyped(s, t);
  }

  lemma ResponseCompletes(s: State, t: nat, r: Response, mapOk: bool)
    requires Typed(s) && Enabled(s, t, Respond(r, mapOk))
    ensures Grows(s, DoRespond(s, t, r, mapOk), t) <==> Completes(s, t, Respond(r, mapOk))
  {
    hide Typed, Fresh, Judge, BadResponse;
    HandTyped(s, t);
    JudgedLength(s, t, r, mapOk);
  }

  lemma JudgedLength(s: State, t: nat, r: Response, mapOk: bool)
    requires t < |s.threads| && s.threads[t].Responding? && HandOk(s.threads[t]) && |r.payload| + HEADER_SIZE == s.threads[t].size
    ensures var v := Judge(s.threads[t].size, s.threads[t].answered, r, mapOk);
            && |v.client| == (if s.threads[t].answered.Some? then 1 else 0)
            && (v.Bad? <==> BadResponse(s, Event(t, Respond(r, mapOk)))) && (v.Unmapped? ==> v.client != [])
  {
  }

  lemma CancelLength(s: State)
    ensures |CancelLog(s)| == |s.requests| + |s.memories| + |s.received| + |s.sent|
  {
  }

  // What the state after a response to a request has in it.
  predicate Decided(s: State, t: nat, r: Response, mapOk: bool, s': State)
    requires t < |s.threads| && s.threads[t].Responding? && s.threads[t].answered.Some?
  {
    var irp, size := s.threads[t].answered.value.irp, s.threads[t].size;
    var lost := CopyFails(Event(t, Respond(r, mapOk)), irp.call);
    && |s'.done| > |s.done| && s'.done[..|s.done|] == s.done && |s'.threads| == |s.threads|
    && var c := s'.done[|s.done|];
       && c.irp == irp
       && (if Matches(size, irp.call, r) && !lost then
             && c.status == (if r.errorno == 0 then Success else DeviceError) && c.length == Told(irp.call, r)
             && |s'.done| == |s.done| + 1 && s'.threads[t] == Taking(s.threads[t].irp, s.threads[t].memory, size)
           else
             var mapping := Matches(size, irp.call, r);
             && c.status == (if mapping then NoResources else DeviceError) && c.length == 0
             && |s'.done| == |s.done| + 2
             && s'.done[|s.done| + 1] == Fail(s.threads[t].irp, if mapping then NoResources else Invalid))
  }

  // In every run, a response that matches the request in hand and can be copied completes
  // it, as a success exactly if the server reports no error, and the thread goes on; any
  // other response fails both the request and the exchange.
  lemma ResponsesDecide(n: nat, run: seq<Event>, t: nat, r: Response, mapOk: bool)
    requires Possible(Init(n), run) && Enabled(After(Init(n), run), t, Respond(r, mapOk))
    requires After(Init(n), run).threads[t].answered.Some?
    ensures var s := After(Init(n), run); Decided(s, t, r, mapOk, Next(s, t, Respond(r, mapOk)))
  {
    hide Possible, After, Typed, Conserved, Fresh, Enabled, Next, Matches, Told, CopyFails;
    InitInv(n);
    InvAfter(Init(n), run);
    ResponseDecides(After(Init(n), run), t, r, mapOk);
  }

  lemma ResponseDecides(s: State, t: nat, r: Response, mapOk: bool)
    requires Typed(s) && Enabled(s, t, Respond(r, mapOk)) && s.threads[t].answered.Some?
    ensures Decided(s, t, r, mapOk, Next(s, t, Respond(r, mapOk)))
  {
    hide Typed, Fresh, Judge, PutBack, Matches, Told, CopyFails;
    HandTyped(s, t);
    JudgedAs(s, t, r, mapOk);
    var v := Judge(s.threads[t].size, s.threads[t].answered, r, mapOk);
    if !v.Accepted? {
      var c := Fail(s.threads[t].irp, if v.Unmapped? then NoResources else Invalid);
      PutBackKeeps(s.(done := s.done + v.client + [c]), t, s.threads[t].memory);
      assert DoRespond(s, t, r, mapOk).done == s.done + v.client + [c];
    }
  }

  lemma PutBackKeeps(s: State, t: nat, m: Memory)
    requires t < |s.threads|
    ensures PutBack(s, t, m, []).done == s.done && |PutBack(s, t, m, []).threads| == |s.threads|
  {
  }

  lemma JudgedAs(s: State, t: nat, r: Response, mapOk: bool)
    requires t < |s.threads| && s.threads[t].Responding? && HandOk(s.threads[t]) && |r.payload| + HEADER_SIZE == s.threads[t].size
    requires s.threads[t].answered.Some?
    ensures var v, irp := Judge(s.threads[t].size, s.threads[t].answered, r, mapOk), s.threads[t].answered.value.irp;
            var fits, lost := Matches(s.threads[t].size, irp.call, r), CopyFails(Event(t, Respond(r, mapOk)), irp.call);
            && |v.client| == 1 && v.client[0].irp == irp
            && (if fits && !lost then
                  v.Accepted? && v.client[0].status == (if r.errorno == 0 then Success else DeviceError) && v.client[0].length == Told(irp.call, r)
                else if fits then v.Unmapped? && v.client[0].status == NoResources && v.client[0].length == 0
                else v.Bad? && v.client[0].status == DeviceError && v.client[0].length == 0)
  {
  }

  // In every run, a disconnect's cancellation answers each locked buffer with the closing
  // notice, and every exchange and client request in a queue with the loss of the device.
  lemma CancelAnswers(n: nat, run: seq<Event>, t: nat)
    requires Possible(Init(n), run) && Enabled(After(Init(n), run), t, CancelAll)
    ensures var s := After(Init(n), run);
            var d := Next(s, t, CancelAll).done;
            && |d| == |s.done| + |s.requests| + |s.memories| + |s.received| + |s.sent|
            && (forall i :: 0 <= i < |s.memories| ==> Completion(s.memories[i].irp, Success, HEADER_SIZE, Close) in d)
            && (forall i :: 0 <= i < |s.requests| ==> Completion(s.requests[i].irp, NotExist, 0, Nothing) in d)
            && (forall i :: 0 <= i < |s.received| ==> Completion(s.received[i].irp, NotExist, 0, Nothing) in d)
            && (forall i :: 0 <= i < |s.sent| ==> Completion(s.sent[i].irp, NotExist, 0, Nothing) in d)
  {
    hide Possible, After, Conserved, Fresh, HandOk, Enabled, Next;
    InitInv(n);
    InvAfter(Init(n), run);
    CancelAnswersIn(After(Init(n), run), t);
  }

  lemma CancelAnswersIn(s: State, t: nat)
    requires Typed(s) && Enabled(s, t, CancelAll)
    ensures var d := Next(s, t, CancelAll).done;
            && |d| == |s.done| + |s.requests| + |s.memories| + |s.received| + |s.sent|
            && (forall i :: 0 <= i < |s.memories| ==> Completion(s.memories[i].irp, Success, HEADER_SIZE, Close) in d)
            && (forall i :: 0 <= i < |s.requests| ==> Completion(s.requests[i].irp, NotExist, 0, Nothing) in d)
            && (forall i :: 0 <= i < |s.received| ==> Completion(s.received[i].irp, NotExist, 0, Nothing) in d)
            && (forall i :: 0 <= i < |s.sent| ==> Completion(s.sent[i].irp, NotExist, 0, Nothing) in d)
  {
    hide HandOk, Fresh;
    var p, q := CancelledQueue(s.requests), CancelledQueue(s.memories);
    var u, v := NotExistQueue(s.received), NotExistQueue(s.sent);
    InFour(s.done, p, q, u, v);
    forall i | 0 <= i < |s.memories| ensures Completion(s.memories[i].irp, Success, HEADER_SIZE, Close) in q {
      assert q[i] == Cancelled(s.memories[i]);
    }
    forall i | 0 <= i < |s.requests| ensures Completion(s.requests[i].irp, NotExist, 0, Nothing) in p {
      assert p[i] == Cancelled(s.requests[i]);
    }
    forall i | 0 <= i < |s.received| ensures Completion(s.received[i].irp, NotExist, 0, Nothing) in u {
      assert u[i] == Fail(s.received[i].irp, NotExist);
    }
    forall i | 0 <= i < |s.sent| ensures Completion(s.sent[i].irp, NotExist, 0, Nothing) in v {
      assert v[i] == Fail(s.sent[i].irp, NotExist);
    }
  }

  lemma InFour<T>(o: seq<T>, p: seq<T>, q: seq<T>, u: seq<T>, v: seq<T>)
    ensures var d := o + (p + (q + (u + v)));
            && |d| == |o| + |p| + |q| + |u| + |v|
            && (forall x :: x in p || x in q || x in u || x in v ==> x in d)
  {
  }

  // The buffer of an exchange in hand: memory locked under its key, with that memory's
  // length, or its own.
  predicate BufferFor(irp: Irp, m: Memory, size: nat) {
    irp.call.Exchange? &&
    match m
    case Memory(_, lock) => irp.call.output == 0 && irp.call.key != [] && LockedUnder(lock, irp.call.key) && size == lock.call.output
    case NoMemory => size == irp.call.output > 0
  }

  predicate BufferOk(pc: Pc) {
    match pc
    case Sending(_, server) => server.mapped ==> BufferFor(server.irp, server.memory, server.size)
    case Tagged(irp, memory, size) => BufferFor(irp, memory, size)
    case Responding(irp, memory, size, _) => BufferFor(irp, memory, size)
    case Taking(irp, memory, size) => BufferFor(irp, memory, size)
    case _ => true
  }

  predicate BuffersOk(s: State) {
    forall t :: 0 <= t < |s.threads| ==> BufferOk(s.threads[t])
  }

  // The buffer that an exchange gets.
  lemma ReservedFor(memories: seq<Item>, irp: Irp, mapOk: bool)
    requires irp.call.Exchange? && !Reserved(memories, irp, mapOk).Denied?
    ensures var r := Reserved(memories, irp, mapOk); BufferFor(irp, Taken(memories, r), TakenSize(memories, r))
  {
  }

  lemma BufferStep(s: State, t: nat, a: Action)
    requires Typed(s) && Enabled(s, t, a) && BuffersOk(s)
    ensures BuffersOk(Next(s, t, a))
  {
    hide Fresh, HandOk, ClientItem, ServerItem, LockItem, BufferFor, Reserved, Taken, TakenSize, Rest, Requeued, Need, RequestLength, Judge,
      CancelLog, ClientKind, Find, Without, LockedUnder;
    var s' := Next(s, t, a);
    forall u | 0 <= u < |s'.threads| ensures BufferOk(s'.threads[u]) {
      if u == t {
        OwnBuffer(s, t, a);
      } else {
        OtherHand(s, t, a, u);
      }
    }
  }

  lemma OtherHand(s: State, t: nat, a: Action, u: nat)
    requires Typed(s) && Enabled(s, t, a) && u != t && u < |s.threads|
    ensures u < |Next(s, t, a).threads| == |s.threads| && Next(s, t, a).threads[u] == s.threads[u]
  {
    hide Typed, Enabled, Next, AllCaused;
    var d := StepCauses(s, t, a);
  }

  lemma AcceptLeaves(s: State, t: nat)
    requires Typed(s) && Enabled(s, t, Accept)
    ensures BufferOk(DoAccept(s, t).threads[t])
  {
    hide Fresh, HandOk, ClientItem, LockItem, BufferFor;
  }

  lemma TransferLeaves(s: State, t: nat, mapOk: bool)
    requires Enabled(s, t, Transfer(mapOk))
    ensures BufferOk(DoTransfer(s, t, mapOk).threads[t])
  {
    hide Fresh, Need, RequestLength, ClientKind;
  }

  lemma ReserveLeaves(s: State, t: nat, mapOk: bool)
    requires Enabled(s, t, Action.Reserve(mapOk))
    ensures BufferOk(DoReserve(s, t, mapOk).threads[t])
  {
    hide Fresh, BufferFor, Reserved, Taken, TakenSize, Rest, ClientKind;
    if !Reserved(s.memories, s.threads[t].server.irp, mapOk).Denied? {
      ReservedFor(s.memories, s.threads[t].server.irp, mapOk);
    }
  }

  lemma ExchangeLeaves(s: State, t: nat, irp: Irp, mapOk: bool)
    requires Enabled(s, t, ExchangeCall(irp, mapOk))
    ensures BufferOk(DoExchangeCall(s, t, irp, mapOk).threads[t])
  {
    hide Fresh, BufferFor, Reserved, Taken, TakenSize, Rest, ClientKind;
    if !Reserved(s.memories, irp, mapOk).Denied? {
      ReservedFor(s.memories, irp, mapOk);
    }
  }

  lemma OthersLeave(s: State, t: nat, a: Action)
    requires Enabled(s, t, a) && BufferOk(s.threads[t])
    requires !a.Accept? && !a.Transfer? && !a.Reserve? && !a.ExchangeCall?
    ensures BufferOk(Next(s, t, a).threads[t])
  {
    hide Fresh, BufferFor, Requeued, Judge, CancelLog, ClientKind, Find, Without;
  }

  lemma OwnBuffer(s: State, t: nat, a: Action)
    requires Typed(s) && Enabled(s, t, a) && BufferOk(s.threads[t]) && t < |Next(s, t, a).threads|
    ensures BufferOk(Next(s, t, a).threads[t])
  {
    hide Typed, Fresh, BufferOk, DoClientCall, DoAccept, DoReserve, DoTransfer, DoExchangeCall, DoReadTag, DoRespond, DoTake, DoReturn,
      DoLockCall, DoQueueLock, DoCancelAll;
    match a
    case Accept => AcceptLeaves(s, t);
    case Transfer(mapOk) => TransferLeaves(s, t, mapOk);
    case Reserve(mapOk) => ReserveLeaves(s, t, mapOk);
    case ExchangeCall(irp, mapOk) => ExchangeLeaves(s, t, irp, mapOk);
    case _ => OthersLeave(s, t, a);
  }

  lemma {:induction false} BuffersInRun(s: State, run: seq<Event>)
    requires Inv(s) && BuffersOk(s) && Possible(s, run)
    ensures BuffersOk(After(s, run))
    decreases run
  {
    hide Typed, Conserved, Enabled, Next, BuffersOk;
    if run != [] {
      BufferStep(s, run[0].t, run[0].a);
      InvPreserved(s, run[0].t, run[0].a);
      BuffersInRun(Next(s, run[0].t, run[0].a), run[1..]);
    }
  }

  // After any run the buffer that an exchange has in hand is its own, or the memory locked
  // under its key, and its size is that of this buffer.
  lemma BuffersAreTheirs(n: nat, run: seq<Event>, t: nat)
    requires Possible(Init(n), run) && t < |After(Init(n), run).threads|
    ensures BufferOk(After(Init(n), run).threads[t])
  {
    hide Possible, After;
    InitInv(n);
    BuffersInRun(Init(n), run);
  }
}
