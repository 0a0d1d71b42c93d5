// What holds of the request queues after any run.

module IrpTheorems {
  import opened Basics
  import opened IrpQueues
  import opened IrpCounting
  import opened IrpRuns

  datatype Event = Event(t: nat, a: Action)

  predicate Possible(s: State, run: seq<Event>)
    decreases run
  {
    run == [] || (Enabled(s, run[0].t, run[0].a) && Possible(Next(s, run[0].t, run[0].a), run[1..]))
  }

  function After(s: State, run: seq<Event>): State
    requires Possible(s, run)
    decreases run
  {
    if run == [] then s else After(Next(s, run[0].t, run[0].a), run[1..])
  }

  lemma {:induction false} InvAfter(s: State, run: seq<Event>)
    requires Inv(s) && Possible(s, run)
    ensures Inv(After(s, run))
    decreases run
  {
    hide Inv, Enabled, Next;
    if run != [] {
      InvPreserved(s, run[0].t, run[0].a);
      InvAfter(Next(s, run[0].t, run[0].a), run[1..]);
    }
  }

  // Where a request can be.
  datatype Place = InReceived(i: nat) | InSent(i: nat) | InRequests(i: nat) | InMemories(i: nat) | InHand(t: nat) | InLog(i: nat)

  function PlaceCount(s: State, p: Place, x: Token): nat {
    match p
    case InReceived(i) => if i < |s.received| then ItemCount(s.received[i], x) else 0
    case InSent(i) => if i < |s.sent| then ItemCount(s.sent[i], x) else 0
    case InRequests(i) => if i < |s.requests| then ItemCount(s.requests[i], x) else 0
    case InMemories(i) => if i < |s.memories| then ItemCount(s.memories[i], x) else 0
    case InHand(t) => if t < |s.threads| then HandCount(s.threads[t], x) else 0
    case InLog(i) => if i < |s.done| then IrpCount(s.done[i].irp, x) else 0
  }

  predicate Holds(s: State, p: Place, irp: Irp) {
    PlaceCount(s, p, Of(irp)) > 0
  }

  // The total over the places of one kind.
  function KindCount(s: State, p: Place, x: Token): nat {
    match p
    case InReceived(_) => QueueCount(s.received, x)
    case InSent(_) => QueueCount(s.sent, x)
    case InRequests(_) => QueueCount(s.requests, x)
    case InMemories(_) => QueueCount(s.memories, x)
    case InHand(_) => HandsCount(s.threads, x)
    case InLog(_) => DoneCount(s.done, x)
  }

  predicate SameKind(p: Place, q: Place) {
    match p
    case InReceived(_) => q.InReceived?
    case InSent(_) => q.InSent?
    case InRequests(_) => q.InRequests?
    case InMemories(_) => q.InMemories?
    case InHand(_) => q.InHand?
    case InLog(_) => q.InLog?
  }

  lemma PlaceInKind(s: State, p: Place, x: Token)
    ensures PlaceCount(s, p, x) <= KindCount(s, p, x) <= Count(s, x)
  {
    hide ItemCount, HandCount, IrpCount;
    match p
    case InReceived(i) => if i < |s.received| { ItemInQueue(s.received, i, x); }
    case InSent(i) => if i < |s.sent| { ItemInQueue(s.sent, i, x); }
    case InRequests(i) => if i < |s.requests| { ItemInQueue(s.requests, i, x); }
    case InMemories(i) => if i < |s.memories| { ItemInQueue(s.memories, i, x); }
    case InHand(t) => if t < |s.threads| { HandInHands(s.threads, t, x); }
    case InLog(i) => if i < |s.done| { InDone(s.done, i, x); }
  }

  lemma TwoInKind(s: State, p: Place, q: Place, x: Token)
    requires SameKind(p, q) && p != q
    ensures PlaceCount(s, p, x) + PlaceCount(s, q, x) <= KindCount(s, p, x)
  {
    hide ItemCount, HandCount, IrpCount;
    PlaceInKind(s, p, x);
    PlaceInKind(s, q, x);
    match p
    case InReceived(i) => if i < |s.received| && q.i < |s.received| { TwoInQueue(s.received, Min(i, q.i), Max(i, q.i), x); }
    case InSent(i) => if i < |s.sent| && q.i < |s.sent| { TwoInQueue(s.sent, Min(i, q.i), Max(i, q.i), x); }
    case InRequests(i) => if i < |s.requests| && q.i < |s.requests| { TwoInQueue(s.requests, Min(i, q.i), Max(i, q.i), x); }
    case InMemories(i) => if i < |s.memories| && q.i < |s.memories| { TwoInQueue(s.memories, Min(i, q.i), Max(i, q.i), x); }
    case InHand(t) => if t < |s.threads| && q.t < |s.threads| { TwoHands(s.threads, Min(t, q.t), Max(t, q.t), x); }
    case InLog(i) => if i < |s.done| && q.i < |s.done| { TwoInDone(s.done, Min(i, q.i), Max(i, q.i), x); }
  }

  lemma TwoPlaces(s: State, p: Place, q: Place, x: Token)
    requires p != q
    ensures PlaceCount(s, p, x) + PlaceCount(s, q, x) <= Count(s, x)
  {
    hide PlaceCount;
    PlaceInKind(s, p, x);
    PlaceInKind(s, q, x);
    if SameKind(p, q) {
      TwoInKind(s, p, q, x);
    }
  }

  lemma {:induction false} SomeItem(q: seq<Item>, x: Token) returns (i: nat)
    requires QueueCount(q, x) > 0
    ensures i < |q| && ItemCount(q[i], x) > 0
  {
    if ItemCount(q[0], x) > 0 {
      i := 0;
    } else {
      i := SomeItem(q[1..], x);
      i := i + 1;
    }
  }

  lemma {:induction false} SomeHand(threads: seq<Pc>, x: Token) returns (t: nat)
    requires HandsCount(threads, x) > 0
    ensures t < |threads| && HandCount(threads[t], x) > 0
  {
    if HandCount(threads[0], x) > 0 {
      t := 0;
    } else {
      t := SomeHand(threads[1..], x);
      t := t + 1;
    }
  }

  lemma {:induction false} SomeDone(d: seq<Completion>, x: Token) returns (i: nat)
    requires DoneCount(d, x) > 0
    ensures i < |d| && IrpCount(d[i].irp, x) > 0
  {
    if IrpCount(d[0].irp, x) > 0 {
      i := 0;
    } else {
      i := SomeDone(d[1..], x);
      i := i + 1;
    }
  }

  lemma SomePlace(s: State, irp: Irp) returns (p: Place)
    requires Count(s, Of(irp)) > 0
    ensures Holds(s, p, irp)
  {
    hide ItemCount, HandCount, IrpCount;
    var x, i := Of(irp), 0;
    if QueueCount(s.received, x) > 0 {
      i := SomeItem(s.received, x);
      p := InReceived(i);
    } else if QueueCount(s.sent, x) > 0 {
      i := SomeItem(s.sent, x);
      p := InSent(i);
    } else if QueueCount(s.requests, x) > 0 {
      i := SomeItem(s.requests, x);
      p := InRequests(i);
    } else if QueueCount(s.memories, x) > 0 {
      i := SomeItem(s.memories, x);
      p := InMemories(i);
    } else if HandsCount(s.threads, x) > 0 {
      i := SomeHand(s.threads, x);
      p := InHand(i);
    } else {
      i := SomeDone(s.done, x);
      p := InLog(i);
    }
  }

  lemma CountOf(s: State, x: Irp)
    requires Inv(s)
    ensures Count(s, Of(x)) == Bit(x in s.issued)
  {
    hide Typed, Count;
  }

  // What a pending place leaves for the log.
  lemma KindsCount(s: State, p: Place, x: Irp)
    requires !p.InLog?
    ensures PlaceCount(s, p, Of(x)) + DoneCount(s.done, Of(x)) <= Count(s, Of(x))
  {
    hide PlaceCount;
    PlaceInKind(s, p, Of(x));
  }

  // After any run, every request that the driver was given is in exactly one place, and
  // no other request is anywhere.
  lemma OnePlaceInEveryRun(n: nat, run: seq<Event>, irp: Irp)
    requires Possible(Init(n), run)
    ensures var s := After(Init(n), run);
            && (irp in s.issued <==> exists p :: Holds(s, p, irp))
            && forall p, q :: Holds(s, p, irp) && Holds(s, q, irp) ==> p == q
  {
    InitInv(n);
    InvAfter(Init(n), run);
    OnePlace(After(Init(n), run), irp);
  }

  lemma OnePlace(s: State, irp: Irp)
    requires Inv(s)
    ensures irp in s.issued <==> exists p :: Holds(s, p, irp)
    ensures forall p, q :: Holds(s, p, irp) && Holds(s, q, irp) ==> p == q
  {
    hide Typed, Count, PlaceCount;
    assert Count(s, Of(irp)) == Bit(irp in s.issued);
    if irp in s.issued {
      var p := SomePlace(s, irp);
      assert Holds(s, p, irp);
    } else {
      forall p ensures !Holds(s, p, irp) {
        PlaceInKind(s, p, Of(irp));
      }
    }
    forall p, q | Holds(s, p, irp) && Holds(s, q, irp) ensures p == q {
      if p != q {
        TwoPlaces(s, p, q, Of(irp));
      }
    }
  }

  // A request is completed at most once.
  lemma CompletedOnce(n: nat, run: seq<Event>, i: nat, j: nat)
    requires Possible(Init(n), run) && i < j < |After(Init(n), run).done|
    ensures After(Init(n), run).done[i].irp != After(Init(n), run).done[j].irp
  {
    hide Possible, After, Init;
    var s := After(Init(n), run);
    var irp := s.done[i].irp;
    OnePlaceInEveryRun(n, run, irp);
    assert Holds(s, InLog(i), irp) && (s.done[j].irp == irp ==> Holds(s, InLog(j), irp));
  }

  // No queued item holds a memory buffer, so completing it under the queue lock never
  // takes that lock again.
  lemma QueuedItemsHoldNoBuffer(n: nat, run: seq<Event>, item: Item)
    requires Possible(Init(n), run)
    requires var s := After(Init(n), run); item in s.received || item in s.sent || item in s.requests || item in s.memories
    ensures item.memory == NoMemory
  {
    InitInv(n);
    InvAfter(Init(n), run);
    QueuesHoldNoBuffer(After(Init(n), run), item);
  }

  lemma QueuesHoldNoBuffer(s: State, item: Item)
    requires Typed(s) && (item in s.received || item in s.sent || item in s.requests || item in s.memories)
    ensures item.memory == NoMemory
  {
    hide HandOk, ClientKind;
  }

  // A tag stands for one sent request at most.
  lemma TagsAreUnique(s: State, i: nat)
    requires Inv(s) && i < |s.sent|
    ensures s.sent[i].addr != 0 && Find(s.sent, s.sent[i].addr) == i
  {
    hide Typed, Count, Find;
    var x := At(s.sent[i].addr);
    var j := Find(s.sent, s.sent[i].addr);
    PlaceInKind(s, InSent(i), x);
    if j != i {
      TwoPlaces(s, InSent(i), InSent(j), x);
    }
  }

  // The response to a tag completes the request that was sent with it, whatever the
  // response says: the request leaves the queue with the tag,
  lemma TagFindsItsRequest(s: State, t: nat, i: nat)
    requires Inv(s) && i < |s.sent| && t < |s.threads| && s.threads[t].Tagged?
    ensures var s' := DoReadTag(s, t, s.sent[i].addr);
            s'.threads[t].Responding? && s'.threads[t].answered == Some(s.sent[i])
  {
    TagsAreUnique(s, i);
  }

  // and the only thing that its thread can do next completes it.
  lemma ResponseCompletesIt(s: State, t: nat, a: Action, client: Item)
    requires Inv(s) && Enabled(s, t, a) && s.threads[t].Responding? && s.threads[t].answered == Some(client)
    ensures a.Respond?
    ensures DoneCount(Next(s, t, a).done, Of(client.irp)) == 1
    ensures forall p :: Holds(Next(s, t, a), p, client.irp) ==> p.InLog?
  {
    hide Typed, Count, Fresh, PlaceCount, Judge;
    var s', pc, r := Next(s, t, a), s.threads[t], a.r;
    var v := Judge(pc.size, pc.answered, r, a.mapOk);
    JudgeCompletes(pc.size, pc.answered, r, a.mapOk, Of(client.irp));
    CompletedByVerdict(s, t, r, a.mapOk, client.irp);
    InvPreserved(s, t, a);
    OnePlace(s', client.irp);
    var i := SomeDone(s'.done, Of(client.irp));
    DoneInLog(s', i, client.irp);
    PlaceInKind(s', InLog(i), Of(client.irp));
  }

  lemma DoneInLog(s: State, i: nat, irp: Irp)
    requires i < |s.done| && IrpCount(s.done[i].irp, Of(irp)) > 0
    ensures Holds(s, InLog(i), irp)
  {
  }

  lemma CompletedByVerdict(s: State, t: nat, r: Response, mapOk: bool, irp: Irp)
    requires t < |s.threads| && s.threads[t].Responding? && |r.payload| + HEADER_SIZE == s.threads[t].size
    requires DoneCount(Judge(s.threads[t].size, s.threads[t].answered, r, mapOk).client, Of(irp)) > 0
    ensures DoneCount(DoRespond(s, t, r, mapOk).done, Of(irp)) > 0
  {
    hide Judge;
    var pc := s.threads[t];
    var v := Judge(pc.size, pc.answered, r, mapOk);
    DoneAppend(s.done, v.client, Of(irp));
    DoneAppend(s.done + v.client, [Fail(pc.irp, NoResources)], Of(irp));
    DoneAppend(s.done + v.client, [Fail(pc.irp, Invalid)], Of(irp));
    DoneAppend(s.done + v.client + [Fail(pc.irp, NoResources)], [], Of(irp));
    DoneAppend(s.done + v.client + [Fail(pc.irp, Invalid)], [], Of(irp));
  }
}
