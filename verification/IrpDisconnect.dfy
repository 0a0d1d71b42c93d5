// What a disconnect completes, and what it leaves behind.

module IrpDisconnect {
  import opened Basics
  import opened IrpQueues
  import opened IrpCounting
  import opened IrpRuns
  import opened IrpTheorems
  import opened IrpReplies

  // A disconnect empties the four queues; whatever is then still to be completed is in the
  // hands of some thread.
  lemma DisconnectLeavesHands(s: State, t: nat, irp: Irp)
    requires Inv(s) && Enabled(s, t, CancelAll)
    ensures var s' := Next(s, t, CancelAll);
            && s'.received == s'.sent == s'.requests == s'.memories == []
            && (irp in s'.issued ==> (DoneCount(s'.done, Of(irp)) == 0 <==> HandsCount(s'.threads, Of(irp)) == 1))
            && (irp in s'.issued ==> (DoneCount(s'.done, Of(irp)) == 1 <==> HandsCount(s'.threads, Of(irp)) == 0))
            && HandsCount(s'.threads, Of(irp)) == HandsCount(s.threads, Of(irp))
  {
    hide Typed, DoneCount, HandsCount, HandCount, CancelLog;
    InvPreserved(s, t, CancelAll);
    assert Count(Next(s, t, CancelAll), Of(irp)) == Bit(irp in s.issued);
    SameHands(s, t, Of(irp));
  }

  lemma SameHands(s: State, t: nat, x: Token)
    requires t < |s.threads| && s.threads[t].Cancelling?
    ensures HandsCount(s.threads[t := Idle], x) == HandsCount(s.threads, x)
  {
    HandsMove(s.threads, t, Idle, x);
  }

  // With no other request in hand, a disconnect completes everything.
  lemma QuietDisconnectCompletesAll(s: State, t: nat, irp: Irp)
    requires Inv(s) && Enabled(s, t, CancelAll) && irp in s.issued
    requires forall u :: 0 <= u < |s.threads| && u != t ==> s.threads[u] == Idle
    ensures DoneCount(Next(s, t, CancelAll).done, Of(irp)) == 1
  {
    hide Inv, DoneCount, CancelLog;
    DisconnectLeavesHands(s, t, irp);
    QuietHands(s.threads, Of(irp));
  }

  lemma {:induction false} QuietHands(threads: seq<Pc>, x: Token)
    requires forall u :: 0 <= u < |threads| ==> threads[u] == Idle || threads[u] == Cancelling
    ensures HandsCount(threads, x) == 0
  {
    if threads != [] {
      QuietHands(threads[1..], x);
    }
  }

  // Once an object is disconnected, only the cancellation of another disconnect takes an
  // exchange out of its queue.
  predicate Cancels(run: seq<Event>) {
    exists k :: 0 <= k < |run| && run[k].a.CancelAll?
  }

  lemma OnlyCancelRemoves(s: State, t: nat, a: Action, item: Item)
    requires Enabled(s, t, a) && !s.server && item in s.requests
    ensures !Next(s, t, a).server
    ensures item in Next(s, t, a).requests <==> !a.CancelAll?
  {
    hide Fresh, Find, FindKey, Reserved, Taken, TakenSize, Rest, Requeued, Judge, Need, RequestLength, CancelLog;
  }

  lemma QueuedIsPending(s: State, item: Item)
    requires Inv(s) && item in s.requests
    ensures item.irp in s.issued && DoneCount(s.done, Of(item.irp)) == 0 && HandsCount(s.threads, Of(item.irp)) == 0
  {
    hide Typed, DoneCount, HandsCount;
    var i :| 0 <= i < |s.requests| && s.requests[i] == item;
    CountOf(s, item.irp);
    ItemInQueue(s.requests, i, Of(item.irp));
  }

  lemma CancelCompletes(s: State, t: nat, item: Item)
    requires Inv(s) && Enabled(s, t, CancelAll) && item in s.requests
    ensures DoneCount(Next(s, t, CancelAll).done, Of(item.irp)) == 1
  {
    hide Inv, Enabled, Next, DoneCount, HandsCount;
    QueuedIsPending(s, item);
    IssuedGrows(s, t, CancelAll, item.irp);
    DisconnectLeavesHands(s, t, item.irp);
  }

  lemma IssuedGrows(s: State, t: nat, a: Action, irp: Irp)
    requires Enabled(s, t, a) && irp in s.issued
    ensures irp in Next(s, t, a).issued
  {
    hide Fresh, Find, FindKey, Reserved, Taken, TakenSize, Rest, Requeued, Judge, Need, RequestLength, CancelLog;
  }

  // What is completed stays completed, once.
  lemma StaysCompleted(s: State, t: nat, a: Action, irp: Irp)
    requires Inv(s) && Enabled(s, t, a) && DoneCount(s.done, Of(irp)) == 1
    ensures DoneCount(Next(s, t, a).done, Of(irp)) == 1
  {
    hide Typed, Enabled, Next, DoneCount, HandsCount, QueueCount;
    var d := LogGrows(s, t, a);
    DoneAppend(s.done, d, Of(irp));
    InvPreserved(s, t, a);
    CountOf(Next(s, t, a), irp);
  }

  lemma {:induction false} CompletedInRun(s: State, run: seq<Event>, irp: Irp)
    requires Inv(s) && Possible(s, run) && DoneCount(s.done, Of(irp)) == 1
    ensures DoneCount(After(s, run).done, Of(irp)) == 1
    decreases run
  {
    hide Inv, Enabled, Next, DoneCount;
    if run != [] {
      StaysCompleted(s, run[0].t, run[0].a, irp);
      InvPreserved(s, run[0].t, run[0].a);
      CompletedInRun(Next(s, run[0].t, run[0].a), run[1..], irp);
    }
  }

  lemma CancelsFirst(run: seq<Event>)
    requires run != []
    ensures Cancels(run) <==> run[0].a.CancelAll? || Cancels(run[1..])
  {
    if Cancels(run[1..]) {
      var k :| 0 <= k < |run[1..]| && run[1..][k].a.CancelAll?;
      assert run[k + 1].a.CancelAll?;
    }
    if Cancels(run) && !run[0].a.CancelAll? {
      var k :| 0 <= k < |run| && run[k].a.CancelAll?;
      assert run[1..][k - 1].a.CancelAll?;
    }
  }

  // In every run from a disconnected object, an exchange in the queue is completed if and
  // only if the run has another disconnect's cancellation in it.
  lemma {:induction false} StrandedUntilCancel(s: State, run: seq<Event>, item: Item)
    requires Inv(s) && !s.server && item in s.requests && Possible(s, run)
    ensures DoneCount(After(s, run).done, Of(item.irp)) == if Cancels(run) then 1 else 0
    ensures !Cancels(run) ==> item in After(s, run).requests
    decreases run
  {
    hide Inv, Enabled, Next, DoneCount, Cancels;
    if run == [] {
      QueuedIsPending(s, item);
      NoneCancels(run);
    } else {
      CancelsFirst(run);
      var t, a := run[0].t, run[0].a;
      OnlyCancelRemoves(s, t, a, item);
      InvPreserved(s, t, a);
      if a.CancelAll? {
        CancelCompletes(s, t, item);
        CompletedInRun(Next(s, t, a), run[1..], item.irp);
      } else {
        StrandedUntilCancel(Next(s, t, a), run[1..], item);
      }
    }
  }

  lemma NoneCancels(run: seq<Event>)
    requires run == []
    ensures !Cancels(run)
  {
  }

  // A server request that is in hand while the object is disconnected is queued
  // afterwards, and is then not completed by anything but another disconnect.
  lemma StrandedRequest() returns (run: seq<Event>)
    ensures Possible(Init(2), run)
    ensures var s := After(Init(2), run);
            && !s.server && s.threads == [Idle, Idle] && s.done == [] && |s.requests| == 1 && s.requests[0].irp == LATE
            && forall more :: Possible(s, more) ==>
                 DoneCount(After(s, more).done, Of(LATE)) == if Cancels(more) then 1 else 0
  {
    hide Possible, After, Cancels, DoneCount;
    run := StrandedFrom(0);
    assert Init(2).threads == [Idle, Idle];
    assert StrandedStage(0) == Init(2);
    InitInv(2);
    InvAfter(Init(2), run);
    var s := StrandedStage(6);
    forall more | Possible(s, more)
      ensures DoneCount(After(s, more).done, Of(LATE)) == if Cancels(more) then 1 else 0
    {
      StrandedUntilCancel(s, more, s.requests[0]);
    }
  }

  const LATE: Irp := Irp(0, Exchange(HEADER_SIZE, []))

  function StrandedEvent(k: nat): Event {
    match k
    case 0 => Event(0, ExchangeCall(LATE, true))
    case 1 => Event(1, Disconnect)
    case 2 => Event(1, CancelAll)
    case 3 => Event(0, ReadTag(0))
    case 4 => Event(0, Respond(Response(ReqNull, 0, Same(0), []), true))
    case _ => Event(0, Take(1, true))
  }

  function StrandedStage(k: nat): State {
    var pc := if k == 0 || k == 6 then Idle
              else if k < 4 then Tagged(LATE, NoMemory, HEADER_SIZE)
              else if k == 4 then Responding(LATE, NoMemory, HEADER_SIZE, None)
              else Taking(LATE, NoMemory, HEADER_SIZE);
    State(k < 2, [], [], if k == 6 then [Item(1, LATE, NoMemory, false, 0)] else [], [],
          [pc, if k == 2 then Cancelling else Idle], [], if k == 0 then {} else {LATE}, [], [])
  }

  predicate StrandedStep(k: nat) {
    var e, s := StrandedEvent(k), StrandedStage(k);
    Enabled(s, e.t, e.a) && Next(s, e.t, e.a) == StrandedStage(k + 1)
  }

  lemma StrandedEarly(k: nat)
    requires k < 3
    ensures StrandedStep(k)
  {
    hide Fresh, FindKey, Find;
  }

  lemma StrandedLate(k: nat)
    requires 3 <= k < 5
    ensures StrandedStep(k)
  {
    hide Fresh, FindKey, Find;
  }

  lemma StrandedLast()
    ensures StrandedStep(5)
  {
    NoneAllocated(StrandedStage(5), 1);
  }

  lemma StrandedOne(k: nat)
    requires k < 6
    ensures StrandedStep(k)
  {
    hide StrandedStep;
    if k < 3 {
      StrandedEarly(k);
    } else if k < 5 {
      StrandedLate(k);
    } else {
      StrandedLast();
    }
  }

  lemma {:induction false} StrandedFrom(k: nat) returns (run: seq<Event>)
    requires k <= 6
    ensures Possible(StrandedStage(k), run) && After(StrandedStage(k), run) == StrandedStage(6)
    decreases 6 - k
  {
    hide Enabled, Next, StrandedStage, StrandedEvent;
    run := [];
    if k < 6 {
      StrandedOne(k);
      var rest := StrandedFrom(k + 1);
      run := [StrandedEvent(k)] + rest;
      assert run[1..] == rest;
    }
  }

  lemma NoneAllocated(s: State, addr: nat)
    requires s.received == s.sent == s.requests == s.memories == [] && s.done == [] && addr != 0
    requires forall t :: 0 <= t < |s.threads| ==> HandCount(s.threads[t], At(addr)) == 0
    ensures Fresh(s, addr)
  {
    NoHands(s.threads, At(addr));
  }

  lemma {:induction false} NoHands(threads: seq<Pc>, x: Token)
    requires forall u :: 0 <= u < |threads| ==> HandCount(threads[u], x) == 0
    ensures HandsCount(threads, x) == 0
  {
    if threads != [] {
      NoHands(threads[1..], x);
    }
  }
}
