// What a client receives for its request. The driver checks the length of a response in the
// server's buffer and then reads it there again, for the copy and for the completion.

module IrpReplies {
  import opened Basics
  import opened Bytes
  import opened IrpQueues
  import opened IrpRuns
  import opened IrpTheorems

  // The only completions of client requests that carry anything are those of a response.
  predicate Quiet(c: Completion) {
    c.irp.call.Exchange? || c.irp.call.Lock? || (c.status != Success && c.note == Nothing && c.length == 0)
  }

  // What a step adds to the log.
  predicate Adds(s: State, s': State, d: seq<Completion>) {
    s'.done == s.done + d
  }

  predicate AllQuiet(d: seq<Completion>) {
    forall i :: 0 <= i < |d| ==> Quiet(d[i])
  }

  lemma AppendQuiet(p: seq<Completion>, q: seq<Completion>)
    requires AllQuiet(p) && AllQuiet(q)
    ensures AllQuiet(p + q)
  {
  }

  lemma FailQuiet(irp: Irp, status: Status)
    requires status != Success
    ensures AllQuiet([Fail(irp, status)])
  {
  }

  lemma ServerQuiet(c: Completion)
    requires c.irp.call.Exchange? || c.irp.call.Lock?
    ensures AllQuiet([c])
  {
  }

  lemma PutBackLog(s: State, t: nat, m: Memory, last: seq<Completion>) returns (d: seq<Completion>)
    requires t < |s.threads| && AllQuiet(last)
    ensures Adds(s, PutBack(s, t, m, last), d) && AllQuiet(d)
  {
    d := if m.Memory? then [] else last;
  }

  lemma CompleteServerLog(s: State, t: nat, item: Item, c: Completion) returns (d: seq<Completion>)
    requires t < |s.threads| && item.irp.call.Exchange? && MemoryOk(item.memory) && c.irp == item.irp
    ensures Adds(s, CompleteServer(s, t, item, c), d) && AllQuiet(d)
  {
    hide AllQuiet;
    ServerQuiet(c);
    if c.status == TooSmall && item.memory.Memory? {
      var first := Completion(item.memory.irp, TooSmall, c.length, Nothing);
      ServerQuiet(first);
      AppendQuiet([first], [c]);
      d := [first, c];
      assert d == [first] + [c];
    } else {
      d := PutBackLog(s, t, item.memory, [c]);
    }
  }

  lemma CallLog(s: State, t: nat, a: Action) returns (d: seq<Completion>)
    requires Enabled(s, t, a) && (a.ClientCall? || a.ExchangeCall? || a.LockCall? || a.QueueLock? || a.Disconnect?)
    ensures Adds(s, Next(s, t, a), d) && AllQuiet(d)
  {
    hide Fresh, Reserved, Taken, TakenSize, Rest, ClientKind;
    d := Next(s, t, a).done[|s.done|..];
  }

  lemma AcceptLog(s: State, t: nat) returns (d: seq<Completion>)
    requires Enabled(s, t, Accept)
    ensures Adds(s, DoAccept(s, t), d) && AllQuiet(d)
  {
    hide Fresh, ClientKind;
    d := DoAccept(s, t).done[|s.done|..];
  }

  lemma ReserveLog(s: State, t: nat, mapOk: bool) returns (d: seq<Completion>)
    requires Enabled(s, t, Action.Reserve(mapOk))
    ensures Adds(s, DoReserve(s, t, mapOk), d) && AllQuiet(d)
  {
    hide Fresh, Taken, TakenSize, Rest, FindKey, HasKey, ClientKind;
    d := DoReserve(s, t, mapOk).done[|s.done|..];
  }

  lemma TransferLog(s: State, t: nat, mapOk: bool) returns (d: seq<Completion>)
    requires Typed(s) && Enabled(s, t, Transfer(mapOk))
    ensures Adds(s, DoTransfer(s, t, mapOk), d) && AllQuiet(d)
  {
    hide Typed, Fresh, ClientKind, Need, RequestLength, CompleteServer, AllQuiet;
    HandTyped(s, t);
    var client, server := s.threads[t].client, s.threads[t].server;
    if server.size < Need(client.irp.call) {
      d := CompleteServerLog(s.(received := [client] + s.received), t, server, Fail(server.irp, TooSmall));
    } else if client.irp.call.Write? && client.irp.call.data != [] && !mapOk {
      var s1 := s.(done := s.done + [Fail(client.irp, NoResources)], left := s.left + [client.irp]);
      d := CompleteServerLog(s1, t, server, Fail(server.irp, NoResources));
      FailQuiet(client.irp, NoResources);
      AppendQuiet([Fail(client.irp, NoResources)], d);
      assert s.done + [Fail(client.irp, NoResources)] + d == s.done + ([Fail(client.irp, NoResources)] + d);
      d := [Fail(client.irp, NoResources)] + d;
    } else {
      var c := Completion(server.irp, Success, RequestLength(client.irp.call), Request(client.addr, client.irp));
      d := CompleteServerLog(s.(sent := s.sent + [client], left := s.left + [client.irp]), t, server, c);
    }
  }

  // An exchange that fails.
  lemma FailedLog(s: State, t: nat, irp: Irp, status: Status, m: Memory)
    requires t < |s.threads| && status != Success
    ensures Adds(s, PutBack(s.(done := s.done + [Fail(irp, status)]), t, m, []), [Fail(irp, status)])
  {
  }

  lemma TagLog(s: State, t: nat, tag: nat) returns (d: seq<Completion>)
    requires Enabled(s, t, ReadTag(tag))
    ensures Adds(s, DoReadTag(s, t, tag), d) && AllQuiet(d)
  {
    hide Fresh, Find, Without, PutBack, ClientKind;
    var pc := s.threads[t];
    FailedLog(s, t, pc.irp, Invalid, pc.memory);
    d := if tag != 0 && Find(s.sent, tag) == |s.sent| then [Fail(pc.irp, Invalid)] else [];
  }

  lemma TakeLog(s: State, t: nat, addr: nat, pool: bool) returns (d: seq<Completion>)
    requires Enabled(s, t, Take(addr, pool))
    ensures Adds(s, DoTake(s, t, addr, pool), d) && AllQuiet(d)
  {
    hide Fresh, Requeued, PutBack, ClientKind;
    var pc := s.threads[t];
    FailedLog(s, t, pc.irp, NoResources, pc.memory);
    d := if pool then [] else [Fail(pc.irp, NoResources)];
  }

  lemma ReturnLog(s: State, t: nat) returns (d: seq<Completion>)
    requires Typed(s) && Enabled(s, t, Action.Return)
    ensures Adds(s, DoReturn(s, t), d) && AllQuiet(d)
  {
    hide Typed, Fresh, Requeued;
    HandTyped(s, t);
    d := s.threads[t].last;
  }

  lemma CancelLogQuiet(s: State)
    requires Typed(s)
    ensures AllQuiet(CancelLog(s))
  {
    hide Typed;
    QueuesTyped(s);
    var p, q := CancelledQueue(s.requests), CancelledQueue(s.memories);
    var u, v := NotExistQueue(s.received), NotExistQueue(s.sent);
    assert AllQuiet(p) && AllQuiet(q) && AllQuiet(u) && AllQuiet(v);
    hide AllQuiet;
    AppendQuiet(u, v);
    AppendQuiet(q, u + v);
    AppendQuiet(p, q + (u + v));
  }

  lemma QueuesTyped(s: State)
    requires Typed(s)
    ensures forall i :: 0 <= i < |s.requests| ==> s.requests[i].irp.call.Exchange?
    ensures forall i :: 0 <= i < |s.memories| ==> s.memories[i].irp.call.Lock?
  {
    hide HandOk, ClientItem;
  }

  lemma QuietStep(s: State, t: nat, a: Action) returns (d: seq<Completion>)
    requires Typed(s) && Enabled(s, t, a) && !a.Respond?
    ensures Adds(s, Next(s, t, a), d) && AllQuiet(d)
  {
    hide Typed, Fresh, AllQuiet, Adds, DoClientCall, DoAccept, DoReserve, DoTransfer, DoExchangeCall, DoReadTag, DoTake, DoReturn,
      DoLockCall, DoQueueLock, CancelLog;
    match a
    case Accept => d := AcceptLog(s, t);
    case Reserve(mapOk) => d := ReserveLog(s, t, mapOk);
    case Transfer(mapOk) => d := TransferLog(s, t, mapOk);
    case ReadTag(tag) => d := TagLog(s, t, tag);
    case Take(addr, pool) => d := TakeLog(s, t, addr, pool);
    case Return => d := ReturnLog(s, t);
    case CancelAll =>
      CancelLogQuiet(s);
      d := CancelLog(s);
      CancelAdds(s, t);
    case _ => d := CallLog(s, t, a);
  }

  lemma CancelAdds(s: State, t: nat)
    requires t < |s.threads|
    ensures Adds(s, DoCancelAll(s, t), CancelLog(s))
  {
    hide CancelLog;
  }

  // A response adds the completion of the request that it answers, and its own if it fails.
  lemma RespondLog(s: State, t: nat, r: Response, mapOk: bool) returns (d: seq<Completion>)
    requires Typed(s) && Enabled(s, t, Respond(r, mapOk))
    ensures Adds(s, DoRespond(s, t, r, mapOk), Judge(s.threads[t].size, s.threads[t].answered, r, mapOk).client + d) && AllQuiet(d)
  {
    hide Typed, Fresh, Judge, PutBack;
    HandTyped(s, t);
    var pc := s.threads[t];
    var v := Judge(pc.size, pc.answered, r, mapOk);
    var s1 := s.(done := s.done + v.client);
    var status := if v.Unmapped? then NoResources else Invalid;
    FailedLog(s1, t, pc.irp, status, pc.memory);
    d := if v.Accepted? then [] else [Fail(pc.irp, status)];
    assert s.done + v.client + d == s.done + (v.client + d);
    FailQuiet(pc.irp, status);
  }

  // Nothing leaves the log.
  lemma LogGrows(s: State, t: nat, a: Action) returns (d: seq<Completion>)
    requires Typed(s) && Enabled(s, t, a)
    ensures Next(s, t, a).done == s.done + d
  {
    hide Typed, Fresh, AllQuiet, Judge, DoRespond;
    if a.Respond? {
      d := RespondLog(s, t, a.r, a.mapOk);
      d := Judge(s.threads[t].size, s.threads[t].answered, a.r, a.mapOk).client + d;
    } else {
      d := QuietStep(s, t, a);
    }
  }

  // A read whose copy leaves the client's buffer or the server's.
  predicate OverrunBy(c: Completion) {
    c.irp.call.Read? && c.note == Overrun
  }

  predicate SomeOverrun(d: seq<Completion>) {
    exists i :: 0 <= i < |d| && OverrunBy(d[i])
  }

  // A response that passes both checks, but whose length, read again for the copy, exceeds
  // the request or the buffer.
  predicate Races(s: State, e: Event) {
    e.a.Respond? && e.t < |s.threads| && s.threads[e.t].Responding? && s.threads[e.t].answered.Some? &&
    var size, client, r := s.threads[e.t].size, s.threads[e.t].answered.value.irp, e.a.r;
    && ReadFits(size, client, r) && r.length.any > 0 && e.a.mapOk
    && (r.length.copy > client.call.length || HEADER_SIZE + r.length.copy > size)
  }

  predicate Raced(s: State, run: seq<Event>)
    requires Possible(s, run)
    decreases run
  {
    run != [] && (Races(s, run[0]) || Raced(Next(s, run[0].t, run[0].a), run[1..]))
  }

  lemma OverrunAppend(p: seq<Completion>, q: seq<Completion>)
    ensures SomeOverrun(p + q) <==> SomeOverrun(p) || SomeOverrun(q)
  {
    forall i | 0 <= i < |p| ensures (p + q)[i] == p[i] {
    }
    forall i | 0 <= i < |q| ensures (p + q)[|p| + i] == q[i] {
    }
    if SomeOverrun(p + q) {
      var i :| 0 <= i < |p + q| && OverrunBy((p + q)[i]);
      assert if i < |p| then OverrunBy(p[i]) else OverrunBy(q[i - |p|]);
    }
    if SomeOverrun(p) {
      var i :| 0 <= i < |p| && OverrunBy(p[i]);
      assert OverrunBy((p + q)[i]);
    }
    if SomeOverrun(q) {
      var i :| 0 <= i < |q| && OverrunBy(q[i]);
      assert OverrunBy((p + q)[|p| + i]);
    }
  }

  lemma QuietNoOverrun(d: seq<Completion>)
    requires AllQuiet(d)
    ensures !SomeOverrun(d)
  {
  }

  lemma OverrunOfOne(d: seq<Completion>)
    requires |d| <= 1
    ensures SomeOverrun(d) <==> d != [] && OverrunBy(d[0])
  {
    assert d != [] && OverrunBy(d[0]) ==> SomeOverrun(d);
  }

  lemma JudgeOverrun(s: State, e: Event)
    requires Enabled(s, e.t, e.a) && e.a.Respond?
    ensures SomeOverrun(Judge(s.threads[e.t].size, s.threads[e.t].answered, e.a.r, e.a.mapOk).client) <==> Races(s, e)
  {
    hide Fresh, SomeOverrun;
    var d := Judge(s.threads[e.t].size, s.threads[e.t].answered, e.a.r, e.a.mapOk).client;
    OverrunOfOne(d);
  }

  lemma OverrunStep(s: State, e: Event)
    requires Typed(s) && Enabled(s, e.t, e.a)
    ensures SomeOverrun(Next(s, e.t, e.a).done) <==> SomeOverrun(s.done) || Races(s, e)
  {
    hide Typed, Fresh, AllQuiet, SomeOverrun, Races, Judge, DoRespond;
    if e.a.Respond? {
      var d := RespondLog(s, e.t, e.a.r, e.a.mapOk);
      var first := Judge(s.threads[e.t].size, s.threads[e.t].answered, e.a.r, e.a.mapOk).client;
      JudgeOverrun(s, e);
      QuietNoOverrun(d);
      OverrunAppend(first, d);
      OverrunAppend(s.done, first + d);
    } else {
      OnlyResponsesRace(s, e);
      var d := QuietStep(s, e.t, e.a);
      QuietNoOverrun(d);
      OverrunAppend(s.done, d);
    }
  }

  lemma OnlyResponsesRace(s: State, e: Event)
    ensures !e.a.Respond? ==> !Races(s, e)
  {
  }

  lemma {:induction false} OverrunInRun(s: State, run: seq<Event>)
    requires Inv(s) && Possible(s, run)
    ensures SomeOverrun(After(s, run).done) <==> SomeOverrun(s.done) || Raced(s, run)
    decreases run
  {
    hide Typed, Conserved, Enabled, Next, Races, SomeOverrun;
    if run != [] {
      OverrunStep(s, run[0]);
      InvPreserved(s, run[0].t, run[0].a);
      OverrunInRun(Next(s, run[0].t, run[0].a), run[1..]);
    }
  }

  // In every run the copies stay inside the client's buffer and the server's if and only if
  // no response that was accepted is longer when its length is read for the copy.
  lemma OverrunExactly(n: nat, run: seq<Event>)
    requires Possible(Init(n), run)
    ensures SomeOverrun(After(Init(n), run).done) <==> Raced(Init(n), run)
  {
    hide Raced;
    InitInv(n);
    OverrunInRun(Init(n), run);
  }

  // A server that does not change its buffer during an exchange.
  predicate StableRun(run: seq<Event>) {
    forall k :: 0 <= k < |run| && run[k].a.Respond? ==> Stable(run[k].a.r)
  }

  // The response that a completion of a read comes from: given by a thread that held this
  // very request, of the right kind, with the bytes that were in the buffer.
  predicate Answers(s: State, e: Event, c: Completion) {
    e.a.Respond? && e.t < |s.threads| && s.threads[e.t].Responding? && s.threads[e.t].answered.Some? &&
    s.threads[e.t].answered.value.irp == c.irp && e.a.r.code == ReqRead && e.a.r.length.copy == c.length &&
    c.length <= |e.a.r.payload| && HEADER_SIZE + c.length <= s.threads[e.t].size && c.note == Data(e.a.r.payload[..c.length])
  }

  predicate Answered(s: State, run: seq<Event>, c: Completion)
    requires Possible(s, run)
    decreases run
  {
    run != [] && (Answers(s, run[0], c) || Answered(Next(s, run[0].t, run[0].a), run[1..], c))
  }

  // What a stable response makes of each kind of request.
  predicate Sound(c: Completion) {
    match c.irp.call
    case Read(_, _) => c.note.Data? || (c.note == Nothing && c.status != Success && c.length == 0)
    case Write(_, data) => c.note == Nothing && c.length <= |data|
    case Zero(_, _) => c.note == Nothing && c.length == 0
    case Trim(_) => c.note == Nothing && c.length <= 4
    case _ => true
  }

  predicate Bounded(c: Completion) {
    c.irp.call.Read? && c.note.Data? ==> c.length == |c.note.bytes| <= c.irp.call.length
  }

  lemma StableJudged(s: State, e: Event)
    requires Typed(s) && Enabled(s, e.t, e.a) && e.a.Respond? && Stable(e.a.r)
    ensures forall i :: 0 <= i < |Judge(s.threads[e.t].size, s.threads[e.t].answered, e.a.r, e.a.mapOk).client| ==>
              var c := Judge(s.threads[e.t].size, s.threads[e.t].answered, e.a.r, e.a.mapOk).client[i];
              Sound(c) && Bounded(c) && (c.irp.call.Read? && c.note.Data? ==> Answers(s, e, c))
  {
    hide Typed, Fresh;
    HandTyped(s, e.t);
  }

  lemma QuietSound(d: seq<Completion>)
    requires AllQuiet(d)
    ensures forall i :: 0 <= i < |d| ==> Sound(d[i]) && Bounded(d[i]) && (d[i].irp.call.Read? ==> !d[i].note.Data?)
  {
  }

  // Where the completions of a step come from.
  lemma StepSound(s: State, e: Event, c: Completion)
    requires Typed(s) && Enabled(s, e.t, e.a) && (e.a.Respond? ==> Stable(e.a.r))
    requires c in Next(s, e.t, e.a).done && c !in s.done
    ensures Sound(c) && Bounded(c) && (c.irp.call.Read? && c.note.Data? ==> Answers(s, e, c))
  {
    hide Typed, Fresh, AllQuiet, Sound, Bounded, Answers, Judge, DoRespond;
    if e.a.Respond? {
      var d := RespondLog(s, e.t, e.a.r, e.a.mapOk);
      StableJudged(s, e);
      QuietSound(d);
    } else {
      var d := QuietStep(s, e.t, e.a);
      QuietSound(d);
    }
  }

  lemma {:induction false} SoundInRun(s: State, run: seq<Event>, c: Completion)
    requires Inv(s) && Possible(s, run) && StableRun(run)
    requires c in After(s, run).done && c !in s.done
    ensures Sound(c) && Bounded(c) && (c.irp.call.Read? && c.note.Data? ==> Answered(s, run, c))
    decreases run
  {
    hide Typed, Conserved, Enabled, Next, Sound, Bounded, Answers;
    var s1 := Next(s, run[0].t, run[0].a);
    if c in s1.done {
      StepSound(s, run[0], c);
    } else {
      InvPreserved(s, run[0].t, run[0].a);
      SoundInRun(s1, run[1..], c);
    }
  }

  // While the server leaves its responses alone, a read that succeeds brings data, and the
  // data of a read are exactly the bytes that stood in the buffer in a response to that very
  // request, no more than it asked for; no other client request gets data or more length
  // than its own.
  lemma ReadersGetTheirResponse(n: nat, run: seq<Event>, c: Completion)
    requires Possible(Init(n), run) && StableRun(run) && c in After(Init(n), run).done
    ensures Sound(c) && Bounded(c) && (c.irp.call.Read? && c.note.Data? ==> Answered(Init(n), run, c))
  {
    hide Sound, Bounded, Answered;
    InitInv(n);
    SoundInRun(Init(n), run, c);
  }

  // A server that changes the length between the checks and the copy: sixteen bytes were
  // asked for and checked, and 65536 are copied.
  lemma CheckedSixteenCopied65536() returns (run: seq<Event>)
    ensures Possible(Init(1), run)
    ensures run != [] && run[|run| - 1].a == Respond(RACING, true)
    ensures var s := After(Init(1), run);
            s.done != [] && s.done[|s.done| - 1] == Completion(READER.irp, Success, 16, Overrun)
  {
    run := RacingFrom(0);
    assert Init(1).threads == [Idle];
    assert RacingStage(0) == Init(1);
  }

  const RACING: Response := Response(ReqRead, 0, Lengths(16, 16, 16, 65536, 16), Zeros())
  const READER: Item := Item(1, Irp(1, Read(0, 16)), NoMemory, false, 0)
  const FETCH: Irp := Irp(2, Exchange(2 * HEADER_SIZE, []))
  const ANSWER: Irp := Irp(3, Exchange(2 * HEADER_SIZE, []))

  function Zeros(): (z: seq<Byte>)
    ensures |z| == HEADER_SIZE
  {
    seq(HEADER_SIZE, _ => 0)
  }

  function RacingEvent(k: nat): Event {
    match k
    case 0 => Event(0, ClientCall(READER.irp, 1, true))
    case 1 => Event(0, Accept)
    case 2 => Event(0, ExchangeCall(FETCH, true))
    case 3 => Event(0, ReadTag(0))
    case 4 => Event(0, Respond(Response(ReqNull, 0, Same(0), Zeros()), true))
    case 5 => Event(0, Take(2, true))
    case 6 => Event(0, Transfer(true))
    case 7 => Event(0, ExchangeCall(ANSWER, true))
    case 8 => Event(0, ReadTag(1))
    case _ => Event(0, Respond(RACING, true))
  }

  function RacingHand(k: nat): Pc {
    match k
    case 1 => Accepting(READER)
    case 3 => Tagged(FETCH, NoMemory, 2 * HEADER_SIZE)
    case 4 => Responding(FETCH, NoMemory, 2 * HEADER_SIZE, None)
    case 5 => Taking(FETCH, NoMemory, 2 * HEADER_SIZE)
    case 6 => Sending(READER, Item(2, FETCH, NoMemory, true, 2 * HEADER_SIZE))
    case 8 => Tagged(ANSWER, NoMemory, 2 * HEADER_SIZE)
    case 9 => Responding(ANSWER, NoMemory, 2 * HEADER_SIZE, Some(READER))
    case 10 => Taking(ANSWER, NoMemory, 2 * HEADER_SIZE)
    case _ => Idle
  }

  function RacingStage(k: nat): State {
    State(true,
          if 2 <= k < 6 then [READER] else [], if 7 <= k < 9 then [READER] else [], [], [], [RacingHand(k)],
          (if k >= 7 then [Completion(FETCH, Success, HEADER_SIZE, Request(1, READER.irp))] else [])
          + (if k >= 10 then [Completion(READER.irp, Success, 16, Overrun)] else []),
          (if k >= 1 then {READER.irp} else {}) + (if k >= 3 then {FETCH} else {}) + (if k >= 8 then {ANSWER} else {}),
          if k >= 2 then [READER.irp] else [], if k >= 7 then [READER.irp] else [])
  }

  predicate RacingStep(k: nat) {
    var e, s := RacingEvent(k), RacingStage(k);
    Enabled(s, e.t, e.a) && Next(s, e.t, e.a) == RacingStage(k + 1)
  }

  lemma RacingAddresses(k: nat)
    requires k == 0 || k == 5
    ensures Fresh(RacingStage(k), if k == 0 then 1 else 2)
  {
    var s := RacingStage(k);
    assert s.threads[1..] == [];
    if k == 5 {
      assert s.received[1..] == [];
    }
  }

  lemma RacingEarly(k: nat)
    requires k < 3
    ensures RacingStep(k)
  {
    hide Fresh, Find, FindKey;
    RacingAddresses(0);
  }

  lemma RacingMiddle(k: nat)
    requires k == 3 || k == 4
    ensures RacingStep(k)
  {
    hide Fresh, Find, FindKey;
  }

  lemma RacingTake()
    ensures RacingStep(5)
  {
    hide Fresh, Find, FindKey;
    RacingAddresses(5);
  }

  lemma RacingTransfer()
    ensures RacingStep(6)
  {
    hide Fresh, Find, FindKey;
  }

  lemma RacingCall()
    ensures RacingStep(7)
  {
    hide Fresh, Find, FindKey;
  }

  lemma RacingTag()
    ensures RacingStep(8)
  {
    hide Fresh, FindKey;
    assert Find([READER], 1) == 0;
    assert Without([READER], 0) == [];
  }

  lemma RacingAnswer()
    ensures RacingStep(9)
  {
    hide Fresh, Find, FindKey;
  }

  lemma RacingOne(k: nat)
    requires k < 10
    ensures RacingStep(k)
  {
    hide RacingStep;
    match k
    case 5 => RacingTake();
    case 6 => RacingTransfer();
    case 7 => RacingCall();
    case 8 => RacingTag();
    case 9 => RacingAnswer();
    case _ =>
      if k < 3 {
        RacingEarly(k);
      } else {
        RacingMiddle(k);
      }
  }

  lemma {:induction false} RacingFrom(k: nat) returns (run: seq<Event>)
    requires k <= 10
    ensures Possible(RacingStage(k), run) && After(RacingStage(k), run) == RacingStage(10)
    ensures if k < 10 then run != [] && run[|run| - 1] == RacingEvent(9) else run == []
    decreases 10 - k
  {
    hide Enabled, Next, RacingStage, RacingEvent;
    run := [];
    if k < 10 {
      RacingOne(k);
      var rest := RacingFrom(k + 1);
      run := [RacingEvent(k)] + rest;
      assert run[1..] == rest;
    }
  }

  // Whether the transfer of a request goes on with a buffer of some size.
  predicate Accepts(size: nat, c: Call)
    requires ClientKind(c)
  {
    Need(c) <= size
  }

  // The bytes behind the header that a request or the answer to it takes: the data of reads
  // and writes, and a start and a length of eight bytes each for every range.
  function Carried(c: Call): nat
    requires ClientKind(c)
  {
    match c
    case Read(_, length) => length
    case Write(_, data) => |data|
    case Zero(_, _) => 16
    case Trim(ranges) => 16 * ranges
  }

  // A request is put into exactly those buffers that hold the header and these bytes, if and
  // only if the two together stay below 2^32 for a read or a write; the sum of the others
  // does not wrap.
  lemma AcceptsExactly(c: Call)
    requires ClientKind(c)
    ensures (forall size: nat :: Accepts(size, c) <==> HEADER_SIZE + Carried(c) <= size)
            <==> c.Zero? || c.Trim? || HEADER_SIZE + Carried(c) < ULONG_BOUND
  {
    var enough := HEADER_SIZE + Carried(c);
    assert Accepts(Need(c), c);
    assert !c.Zero? && !c.Trim? && enough >= ULONG_BOUND ==> Need(c) < enough;
  }

  // The copy of a write into the server's buffer: it fits every buffer that is accepted if
  // and only if header and data together stay below 2^32, where their sum wraps.
  lemma WriteCopyFits(write: Call)
    requires write.Write? && ClientKind(write)
    ensures (forall size: nat :: Accepts(size, write) ==> RequestLength(write) <= size) <==> RequestLength(write) < ULONG_BOUND
  {
    assert Accepts(Need(write), write);
  }

  lemma WriteCopyLeavesBuffer()
    ensures var write := Write(0, seq(ULONG_BOUND - HEADER_SIZE, _ => 0));
            ClientKind(write) && Accepts(HEADER_SIZE, write) && RequestLength(write) > HEADER_SIZE
  {
    var write := Write(0, seq(ULONG_BOUND - HEADER_SIZE, _ => 0));
    assert |write.data| == ULONG_BOUND - HEADER_SIZE;
  }
}
