// The invariant of the interleavings and what it means: exclusion, one owner for
// every mapping, and no mapping of freed memory.

module AweThreadsProof {
  import opened Bytes
  import opened AweBlocks
  import opened AweLock
  import opened AwePages
  import opened AweThreads

  import AweAlone

  // The counters are the numbers of holders, and a writer is alone.
  ghost predicate LockInv(s: State) {
    && s.lock.readers == |Readers(s)|
    && s.lock.writers == |Writers(s)|
    && Exclusive(s.threads)
  }

  ghost predicate NothingFreeing(s: State) {
    forall t :: t in s.threads ==> !s.threads[t].pc.Freeing?
  }

  ghost predicate FileInv(s: State) {
    && WellFormed(s.blocks, s.memory)
    && s.memory.Keys == Runs(s.blocks)
    && (NothingFreeing(s) ==> s.virtualSize <= Total(s.blocks, s.memory))
  }

  // What a thread's own slot and target may be at each point of its code.
  ghost predicate ThreadOk(s: State, th: Thread) {
    match th.pc
    case Reading => true
    case Exchanged(want) => want < s.virtualSize
    case Copying(want) => Shows(th.local, want)
    case Mapping(want) => 0 <= want < s.virtualSize && th.local == EMPTY_PAGE
    case Freeing(_, eof) => s.latest.mdl.NoMdl? && th.local == EMPTY_PAGE && eof <= TotalOf(s)
    case _ => th.local == EMPTY_PAGE
  }

  ghost predicate ThreadsInv(s: State) {
    && (forall t :: t in s.threads ==> ThreadOk(s, s.threads[t]))
    && (s.closed ==> forall t :: t in s.threads ==> s.threads[t].pc.Idle?)
  }

  // Every slot shows the part of the file it says it shows.
  ghost predicate SlotsInv(s: State)
    requires WellFormed(s.blocks, s.memory)
  {
    && Maps(s.latest, s.blocks, s.memory)
    && forall t :: t in s.threads ==> Maps(s.threads[t].local, s.blocks, s.memory)
  }

  // Every live mapping is in exactly one slot, and no released one is live.
  ghost predicate OwnersInv(s: State) {
    && Owned(s.latest) <= s.mdls
    && (forall t :: t in s.threads ==> Owned(s.threads[t].local) <= s.mdls)
    && (forall t :: t in s.threads ==> Owned(s.threads[t].local) !! Owned(s.latest))
    && (forall t, u :: t in s.threads && u in s.threads && t != u ==>
          Owned(s.threads[t].local) !! Owned(s.threads[u].local))
    && (forall id :: id in s.mdls ==>
          id in Owned(s.latest) || exists t :: t in s.threads && id in Owned(s.threads[t].local))
    && s.mdls !! s.released
  }

  ghost predicate Inv(s: State) {
    LockInv(s) && FileInv(s) && ThreadsInv(s) && SlotsInv(s) && OwnersInv(s)
  }

  lemma OneElement<T>(a: set<T>, x: T, y: T)
    requires |a| <= 1 && x in a && y in a
    ensures x == y
  {
    assert |a - {x}| == |a| - 1;
    assert a - {x} == {};
  }

  // The two holder sets after one thread moves.
  lemma HoldersAfterSet(s: State, s': State, t: Tid, th: Thread)
    requires t in s.threads && s'.threads == s.threads[t := th]
    ensures Readers(s') == (if HoldsRead(th.pc) then Readers(s) + {t} else Readers(s) - {t})
    ensures Writers(s') == (if HoldsWrite(th.pc) then Writers(s) + {t} else Writers(s) - {t})
    ensures t in Readers(s) <==> HoldsRead(s.threads[t].pc)
    ensures t in Writers(s) <==> HoldsWrite(s.threads[t].pc)
  {
  }

  // A free lock means what its counters say about the threads.
  lemma FreeForRead(s: State)
    requires LockInv(s) && !Busy(s.lock, false, false)
    ensures forall t :: t in s.threads ==> !HoldsWrite(s.threads[t].pc)
  {
    assert Writers(s) == {};
    forall t | t in s.threads ensures !HoldsWrite(s.threads[t].pc) {
      assert t in Writers(s) <==> HoldsWrite(s.threads[t].pc);
    }
  }

  lemma FreeForWrite(s: State)
    requires LockInv(s) && !Busy(s.lock, true, false)
    ensures forall t :: t in s.threads ==> s.threads[t].pc.Idle?
  {
    assert Writers(s) == {} && Readers(s) == {};
    forall t | t in s.threads ensures s.threads[t].pc.Idle? {
      assert t in Writers(s) <==> HoldsWrite(s.threads[t].pc);
      assert t in Readers(s) <==> HoldsRead(s.threads[t].pc);
    }
  }

  lemma FreeForUpgrade(s: State, t: Tid)
    requires LockInv(s) && !Busy(s.lock, true, true)
    requires t in s.threads && HoldsRead(s.threads[t].pc)
    ensures forall u :: u in s.threads && u != t ==> s.threads[u].pc.Idle?
  {
    assert Writers(s) == {};
    assert t in Readers(s);
    forall u | u in s.threads && u != t ensures s.threads[u].pc.Idle? {
      assert u in Writers(s) <==> HoldsWrite(s.threads[u].pc);
      if u in Readers(s) {
        OneElement(Readers(s), t, u);
      }
    }
  }

  lemma OneMore<T>(a: set<T>, a': set<T>, x: T, has: bool)
    requires a' == if has then a + {x} else a - {x}
    ensures |a'| == |a| - Held(x in a) + Held(has)
  {
    if x in a {
      assert a == (a - {x}) + {x};
      assert has ==> a' == a;
    } else {
      assert !has ==> a' == a;
    }
  }

  ghost predicate Exclusive(threads: map<Tid, Thread>) {
    forall t, u :: t in threads && u in threads && t != u && HoldsWrite(threads[t].pc) ==> threads[u].pc.Idle?
  }

  lemma ExclusiveMoved(threads: map<Tid, Thread>, t: Tid, th: Thread)
    requires Exclusive(threads) && t in threads
    requires threads[t].pc.Idle? && !th.pc.Idle? ==>
               forall u :: u in threads && u != t ==> !HoldsWrite(threads[u].pc)
    requires !HoldsWrite(threads[t].pc) && HoldsWrite(th.pc) ==>
               forall u :: u in threads && u != t ==> threads[u].pc.Idle?
    ensures Exclusive(threads[t := th])
  {
  }

  // Moving one thread keeps the protection's invariant if the counters follow the
  // holds it takes and drops, and it was free to take them.
  lemma LockMoved(s: State, s': State, t: Tid, th: Thread)
    requires LockInv(s) && t in s.threads && s'.threads == s.threads[t := th]
    requires s'.lock.readers == s.lock.readers - Held(HoldsRead(s.threads[t].pc)) + Held(HoldsRead(th.pc))
    requires s'.lock.writers == s.lock.writers - Held(HoldsWrite(s.threads[t].pc)) + Held(HoldsWrite(th.pc))
    requires Exclusive(s'.threads)
    ensures LockInv(s')
  {
    HoldersAfterSet(s, s', t, th);
    OneMore(Readers(s), Readers(s'), t, HoldsRead(th.pc));
    OneMore(Writers(s), Writers(s'), t, HoldsWrite(th.pc));
  }

  function Held(b: bool): int {
    if b then 1 else 0
  }

  // A step of thread t moves no other thread, and changes the counters by the holds
  // that t takes or drops.
  lemma MovesOne(s: State, step: Step)
    requires Enabled(s, step) && !step.Close?
    ensures var s' := Apply(s, step);
            step.t in s'.threads && s'.threads == s.threads[step.t := s'.threads[step.t]]
  {
  }

  lemma ReadersEffect(s: State, step: Step)
    requires Enabled(s, step) && !step.Close?
    ensures var s' := Apply(s, step);
            s'.lock.readers == s.lock.readers - Held(HoldsRead(s.threads[step.t].pc)) + Held(HoldsRead(s'.threads[step.t].pc))
  {
  }

  lemma WritersEffect(s: State, step: Step)
    requires Enabled(s, step) && !step.Close?
    ensures var s' := Apply(s, step);
            s'.lock.writers == s.lock.writers - Held(HoldsWrite(s.threads[step.t].pc)) + Held(HoldsWrite(s'.threads[step.t].pc))
  {
  }

  // Only the three acquiring steps take a hold that the thread did not have.
  lemma FlowEffect(s: State, step: Step)
    requires Enabled(s, step) && !step.Close?
    ensures var s' := Apply(s, step);
            var pc, pc' := s.threads[step.t].pc, s'.threads[step.t].pc;
            && (step.AcquireWrite? || step.Upgrade? || (HoldsWrite(pc') ==> HoldsWrite(pc)))
            && (step.AcquireWrite? || step.AcquireRead? || (pc.Idle? ==> pc'.Idle?))
  {
  }

  lemma LockPreserved(s: State, step: Step)
    requires LockInv(s) && Enabled(s, step)
    ensures LockInv(Apply(s, step))
  {
    var s' := Apply(s, step);
    if step.Close? {
      assert Readers(s') == Readers(s) && Writers(s') == Writers(s);
    } else {
      MovesOne(s, step);
      ReadersEffect(s, step);
      WritersEffect(s, step);
      FlowEffect(s, step);
      match step {
        case AcquireRead(_) => FreeForRead(s);
        case AcquireWrite(_, _) => FreeForWrite(s);
        case Upgrade(t, _) => FreeForUpgrade(s, t);
        case _ =>
      }
      ExclusiveMoved(s.threads, step.t, s'.threads[step.t]);
      LockMoved(s, s', step.t, s'.threads[step.t]);
    }
  }

  // Storing into a run without resizing it keeps the list's shape.
  lemma {:induction false} SameSizes(bs: seq<Block>, m: Memory, m': Memory)
    requires WellFormed(bs, m) && m'.Keys == m.Keys
    requires forall r :: r in m ==> |m'[r]| == |m[r]|
    ensures WellFormed(bs, m') && Total(bs, m') == Total(bs, m)
  {
    if bs != [] {
      SameSizes(bs[1..], m, m');
    }
  }

  lemma CopyKeepsSizes(m: Memory, mdl: Mdl, at: nat, data: seq<Byte>)
    ensures CopiedTo(m, mdl, at, data).Keys == m.Keys
    ensures forall r :: r in m ==> |CopiedTo(m, mdl, at, data)[r]| == |m[r]|
  {
  }

  // While one thread holds the write lock, every other thread is idle and holds no page.
  lemma OthersIdle(s: State, t: Tid)
    requires Inv(s) && t in s.threads && HoldsWrite(s.threads[t].pc)
    ensures forall u :: u in s.threads && u != t ==> s.threads[u] == Thread(Idle, EMPTY_PAGE)
  {
    forall u | u in s.threads && u != t ensures s.threads[u] == Thread(Idle, EMPTY_PAGE) {
      assert ThreadOk(s, s.threads[u]);
    }
  }

  // Once a thread frees blocks, the size bound is only due when it is done.
  lemma StillFreeing(s: State, step: Step)
    requires Enabled(s, step) && !step.Close? && !step.SetEnd?
    ensures NothingFreeing(Apply(s, step)) ==> NothingFreeing(s)
  {
    var s' := Apply(s, step);
    MovesOne(s, step);
    assert s.threads[step.t].pc.Freeing? ==> s'.threads[step.t].pc.Freeing?;
    if t :| t in s.threads && s.threads[t].pc.Freeing? {
      assert t in s'.threads && s'.threads[t].pc.Freeing?;
    }
  }

  lemma FileAfterFree(s: State, t: Tid)
    requires Inv(s) && Enabled(s, FreeBlock(t))
    ensures FileInv(Apply(s, FreeBlock(t)))
  {
    var s' := Apply(s, FreeBlock(t));
    FlatFrame(s.blocks[1..], s.memory, s'.memory);
    assert s'.threads[t].pc.Freeing?;
  }

  lemma FileAfterAdd(s: State, t: Tid, run: RunId, data: seq<Byte>)
    requires Inv(s) && Enabled(s, AddBlock(t, run, data))
    ensures FileInv(Apply(s, AddBlock(t, run, data)))
  {
    var s' := Apply(s, AddBlock(t, run, data));
    LinkBlock(s.blocks, s.memory, run, data);
    assert s'.blocks[1..] == s.blocks;
    StillFreeing(s, AddBlock(t, run, data));
  }

  lemma FileAfterCopy(s: State, t: Tid, at: nat, data: seq<Byte>)
    requires Inv(s) && Enabled(s, Copy(t, at, data))
    ensures FileInv(Apply(s, Copy(t, at, data)))
  {
    var s' := Apply(s, Copy(t, at, data));
    CopyKeepsSizes(s.memory, s.threads[t].local.mdl, at, data);
    SameSizes(s.blocks, s.memory, s'.memory);
    StillFreeing(s, Copy(t, at, data));
  }

  lemma FileAfterSetEnd(s: State, t: Tid)
    requires Inv(s) && Enabled(s, SetEnd(t))
    ensures FileInv(Apply(s, SetEnd(t)))
  {
    assert ThreadOk(s, s.threads[t]);
  }

  lemma FileUntouched(s: State, step: Step)
    requires Enabled(s, step) && !step.FreeBlock? && !step.AddBlock? && !step.Copy? && !step.SetEnd? && !step.Close?
    ensures var s' := Apply(s, step); s'.blocks == s.blocks && s'.memory == s.memory && s'.virtualSize == s.virtualSize
  {
    hide NewMapping, TotalOf, Busy, Acquired, Released;
  }

  lemma FileSame(s: State, s': State)
    requires FileInv(s) && s'.blocks == s.blocks && s'.memory == s.memory && s'.virtualSize == s.virtualSize
    requires NothingFreeing(s') ==> NothingFreeing(s)
    ensures FileInv(s')
  {
    hide NothingFreeing;
  }

  lemma FileAfterClose(s: State)
    requires Enabled(s, Close)
    ensures FileInv(Apply(s, Close))
  {
  }

  lemma FilePreserved(s: State, step: Step)
    requires Inv(s) && Enabled(s, step)
    ensures FileInv(Apply(s, step))
  {
    hide FileInv, Apply, Enabled, NothingFreeing;
    match step {
      case FreeBlock(t) => FileAfterFree(s, t);
      case AddBlock(t, run, data) => FileAfterAdd(s, t, run, data);
      case Copy(t, at, data) => FileAfterCopy(s, t, at, data);
      case SetEnd(t) => FileAfterSetEnd(s, t);
      case Close => FileAfterClose(s);
      case _ =>
        StillFreeing(s, step);
        FileUntouched(s, step);
        FileSame(s, Apply(s, step));
    }
  }

  // A step leaves a thread other than its own where it was, and keeps what that
  // thread relies on.
  lemma OtherThreadOk(s: State, step: Step, u: Tid)
    requires Inv(s) && Enabled(s, step)
    requires u in s.threads && (step.Close? || u != step.t)
    ensures ThreadOk(Apply(s, step), s.threads[u])
  {
    hide OwnersInv, SlotsInv, LockInv, WellFormed, Maps, Flat, Released, Acquired, CopiedTo, NewMapping, Busy;
    var s' := Apply(s, step);
    assert ThreadOk(s, s.threads[u]);
    if !step.Close? && HoldsWrite(s.threads[u].pc) {
      OthersIdle(s, u);
      assert step.AcquireRead? || step.AcquireWrite?;
      if step.AcquireRead? { FreeForRead(s); } else { FreeForWrite(s); }
    } else if !step.Close? && HoldsWrite(s.threads[step.t].pc) {
      OthersIdle(s, step.t);
    }
  }

  lemma FreeingThreadOk(s: State, t: Tid)
    requires Inv(s) && Enabled(s, FreeBlock(t))
    ensures ThreadOk(Apply(s, FreeBlock(t)), s.threads[t])
  {
    assert ThreadOk(s, s.threads[t]);
    FlatSize(s.blocks[1..], s.memory);
    FlatFrame(s.blocks[1..], s.memory, s.memory - {s.blocks[0].run});
  }

  lemma OwnThreadOk(s: State, step: Step)
    requires Inv(s) && Enabled(s, step) && !step.Close?
    ensures var s' := Apply(s, step); step.t in s'.threads ==> ThreadOk(s', s'.threads[step.t])
  {
    hide LockInv, SlotsInv, OwnersInv, CopiedTo;
    var th := s.threads[step.t];
    assert ThreadOk(s, th);
    match step {
      case FreeBlock(t) => FreeingThreadOk(s, t);
      case MapNew(t, id) => WantedPage(s, t);
      case _ =>
    }
  }

  // The search of MapPage never comes out empty, whatever the other threads do.
  lemma WantedPage(s: State, t: Tid)
    requires Inv(s) && t in s.threads && s.threads[t].pc.Mapping?
    ensures NothingFreeing(s)
    ensures var base := PageBase(s.threads[t].pc.want);
            && 0 <= base < Total(s.blocks, s.memory) && base % PAGE == 0
            && Find(s.blocks, base) != []
  {
    hide LockInv, SlotsInv, OwnersInv;
    assert ThreadOk(s, s.threads[t]);
    var want := s.threads[t].pc.want;
    forall u | u in s.threads ensures !s.threads[u].pc.Freeing? {
      if s.threads[u].pc.Freeing? {
        OthersIdle(s, u);
      }
    }
    FlatSize(s.blocks, s.memory);
    FindPage(s.blocks, s.memory, PageBase(want));
  }

  lemma ThreadsPreserved(s: State, step: Step)
    requires Inv(s) && Enabled(s, step)
    ensures ThreadsInv(Apply(s, step))
  {
    hide Inv, Apply, ThreadOk, Enabled;
    var s' := Apply(s, step);
    ThreadsAfter(s, step);
    forall u | u in s'.threads ensures ThreadOk(s', s'.threads[u]) {
      if step.Close? || u != step.t {
        OtherThreadOk(s, step, u);
      } else {
        OwnThreadOk(s, step);
      }
    }
  }

  // A step moves its own thread, and no thread takes one once the file is closed.
  lemma ThreadsAfter(s: State, step: Step)
    requires Inv(s) && Enabled(s, step)
    ensures var s' := Apply(s, step);
            && (forall u :: u in s'.threads ==> u in s.threads)
            && (forall u :: u in s.threads && (step.Close? || u != step.t) ==> u in s'.threads && s'.threads[u] == s.threads[u])
            && (s'.closed ==> forall u :: u in s'.threads ==> s'.threads[u].pc.Idle?)
  {
    hide LockInv, FileInv, SlotsInv, OwnersInv, ThreadOk, TotalOf, Busy, Released, Acquired, CopiedTo, NewMapping;
  }

  // The page that MapNew creates is the page of the file that the thread wants.
  lemma NewMappingOk(s: State, t: Tid, id: nat)
    requires Inv(s) && t in s.threads && s.threads[t].pc.Mapping?
    ensures var page := NewMapping(s, s.threads[t].pc.want, id);
            Owned(page) == {id} && Maps(page, s.blocks, s.memory)
  {
    WantedPage(s, t);
  }

  // Slots stay right when the search and the total size do not change below the old
  // total.
  lemma SlotsCarryOver(s: State, s': State)
    requires FileInv(s) && FileInv(s') && SlotsInv(s)
    requires s'.latest == s.latest && s'.threads.Keys == s.threads.Keys
    requires forall u :: u in s.threads ==> s'.threads[u].local == s.threads[u].local
    requires Total(s.blocks, s.memory) <= Total(s'.blocks, s'.memory)
    requires forall base :: 0 <= base < Total(s.blocks, s.memory) ==> Find(s'.blocks, base) == Find(s.blocks, base)
    ensures SlotsInv(s')
  {
    forall u | u in s'.threads ensures Maps(s'.threads[u].local, s'.blocks, s'.memory) {
      assert Maps(s.threads[u].local, s.blocks, s.memory);
    }
  }

  lemma SlotsAfterFree(s: State, t: Tid)
    requires Inv(s) && Enabled(s, FreeBlock(t)) && FileInv(Apply(s, FreeBlock(t)))
    ensures SlotsInv(Apply(s, FreeBlock(t)))
  {
    OthersIdle(s, t);
    assert ThreadOk(s, s.threads[t]);
  }

  lemma SlotsAfterAdd(s: State, t: Tid, run: RunId, data: seq<Byte>)
    requires Inv(s) && Enabled(s, AddBlock(t, run, data)) && FileInv(Apply(s, AddBlock(t, run, data)))
    ensures SlotsInv(Apply(s, AddBlock(t, run, data)))
  {
    LinkBlock(s.blocks, s.memory, run, data);
    SlotsCarryOver(s, Apply(s, AddBlock(t, run, data)));
  }

  lemma SlotsAfterCopy(s: State, t: Tid, at: nat, data: seq<Byte>)
    requires Inv(s) && Enabled(s, Copy(t, at, data)) && FileInv(Apply(s, Copy(t, at, data)))
    ensures SlotsInv(Apply(s, Copy(t, at, data)))
  {
    hide LockInv, ThreadsInv, OwnersInv, CopiedTo;
    var s' := Apply(s, Copy(t, at, data));
    CopyKeepsSizes(s.memory, s.threads[t].local.mdl, at, data);
    SameSizes(s.blocks, s.memory, s'.memory);
    SlotsCarryOver(s, s');
  }

  lemma SlotsAfterClose(s: State)
    requires Inv(s) && Enabled(s, Close)
    ensures SlotsInv(Apply(s, Close))
  {
    var s' := Apply(s, Close);
    forall u | u in s'.threads ensures Maps(s'.threads[u].local, s'.blocks, s'.memory) {
      assert ThreadOk(s, s.threads[u]);
    }
  }

  // The other steps only move pages between slots, drop them or map a new one.
  lemma SlotsMoved(s: State, step: Step)
    requires Inv(s) && Enabled(s, step)
    requires !step.FreeBlock? && !step.AddBlock? && !step.Copy? && !step.Close?
    ensures var s' := Apply(s, step);
            && s'.blocks == s.blocks && s'.memory == s.memory
            && Maps(s'.latest, s.blocks, s.memory)
            && step.t in s'.threads && Maps(s'.threads[step.t].local, s.blocks, s.memory)
  {
    hide LockInv, OwnersInv, ThreadsInv, WellFormed, TotalOf, Busy, Released, Acquired, NewMapping, CopiedTo;
    assert Maps(s.threads[step.t].local, s.blocks, s.memory);
    if step.MapNew? {
      NewMappingOk(s, step.t, step.id);
    }
  }

  lemma SlotsAfterMove(s: State, s': State, t: Tid)
    requires FileInv(s) && SlotsInv(s) && t in s.threads && t in s'.threads
    requires s'.blocks == s.blocks && s'.memory == s.memory
    requires s'.threads == s.threads[t := s'.threads[t]]
    requires Maps(s'.latest, s.blocks, s.memory) && Maps(s'.threads[t].local, s.blocks, s.memory)
    ensures SlotsInv(s')
  {
  }

  lemma SlotsPreserved(s: State, step: Step)
    requires Inv(s) && Enabled(s, step) && FileInv(Apply(s, step))
    ensures SlotsInv(Apply(s, step))
  {
    if
    case step.FreeBlock? => SlotsAfterFree(s, step.t);
    case step.AddBlock? => SlotsAfterAdd(s, step.t, step.run, step.data);
    case step.Copy? => SlotsAfterCopy(s, step.t, step.at, step.data);
    case step.Close? => SlotsAfterClose(s);
    case !step.FreeBlock? && !step.AddBlock? && !step.Copy? && !step.Close? =>
      SlotsMoved(s, step);
      MovesOne(s, step);
      SlotsAfterMove(s, Apply(s, step), step.t);
  }

  // The holder that a mapping ends up with after one thread's slot and the shared
  // slot have changed, when every other slot is untouched.
  lemma OwnersMoved(s: State, s': State, t: Tid)
    requires OwnersInv(s) && t in s.threads && t in s'.threads
    requires s'.threads == s.threads[t := s'.threads[t]]
    requires Owned(s'.latest) !! Owned(s'.threads[t].local)
    requires forall id :: id in Owned(s'.latest) + Owned(s'.threads[t].local) ==>
               id in Owned(s.latest) + Owned(s.threads[t].local) || (id !in s.mdls && id !in s.released)
    requires s'.mdls == s.mdls - (Owned(s.latest) + Owned(s.threads[t].local)) + (Owned(s'.latest) + Owned(s'.threads[t].local))
    requires s'.released == s.released + (Owned(s.latest) + Owned(s.threads[t].local) - Owned(s'.latest) - Owned(s'.threads[t].local))
    ensures OwnersInv(s')
  {
    var mine, mine' := Owned(s.latest) + Owned(s.threads[t].local), Owned(s'.latest) + Owned(s'.threads[t].local);
    forall u | u in s.threads && u != t
      ensures Owned(s.threads[u].local) !! mine && Owned(s.threads[u].local) !! mine'
    {
    }
    forall id | id in s'.mdls
      ensures id in Owned(s'.latest) || exists u :: u in s'.threads && id in Owned(s'.threads[u].local)
    {
      if id !in mine' {
        assert id in s.mdls && id !in mine;
        var u :| u in s.threads && id in Owned(s.threads[u].local);
        assert u in s'.threads && id in Owned(s'.threads[u].local);
      } else if id in Owned(s'.threads[t].local) {
        assert t in s'.threads;
      }
    }
  }

  // One thread moved and the live mappings changed by what its slot and the shared
  // slot gained and lost.
  ghost predicate OneMoved(s: State, s': State, t: Tid) {
    t in s.threads && t in s'.threads && s'.threads == s.threads[t := s'.threads[t]]
  }

  lemma OwnersSame(s: State, s': State, t: Tid)
    requires OwnersInv(s) && OneMoved(s, s', t)
    requires s'.latest == s.latest && Owned(s'.threads[t].local) == Owned(s.threads[t].local)
    requires s'.mdls == s.mdls && s'.released == s.released
    ensures OwnersInv(s')
  {
    OwnersMoved(s, s', t);
  }

  lemma OwnersSwapped(s: State, s': State, t: Tid)
    requires OwnersInv(s) && OneMoved(s, s', t)
    requires s'.latest == s.threads[t].local && s'.threads[t].local == s.latest
    requires s'.mdls == s.mdls && s'.released == s.released
    ensures OwnersInv(s')
  {
    OwnersMoved(s, s', t);
  }

  lemma OwnersLocalDropped(s: State, s': State, t: Tid)
    requires OwnersInv(s) && OneMoved(s, s', t)
    requires s'.latest == s.latest && Owned(s'.threads[t].local) == {}
    requires s'.mdls == s.mdls - Owned(s.threads[t].local) && s'.released == s.released + Owned(s.threads[t].local)
    ensures OwnersInv(s')
  {
    OwnersMoved(s, s', t);
  }

  lemma OwnersSharedDropped(s: State, s': State, t: Tid)
    requires OwnersInv(s) && OneMoved(s, s', t)
    requires Owned(s'.latest) == {} && Owned(s'.threads[t].local) == Owned(s.threads[t].local)
    requires s'.mdls == s.mdls - Owned(s.latest) && s'.released == s.released + Owned(s.latest)
    ensures OwnersInv(s')
  {
    OwnersMoved(s, s', t);
  }

  lemma OwnersAdded(s: State, s': State, t: Tid, id: nat)
    requires OwnersInv(s) && OneMoved(s, s', t) && id !in s.mdls && id !in s.released
    requires s'.latest == s.latest && Owned(s.threads[t].local) == {} && Owned(s'.threads[t].local) == {id}
    requires s'.mdls == s.mdls + {id} && s'.released == s.released
    ensures OwnersInv(s')
  {
    OwnersMoved(s, s', t);
  }

  // Only a swap, the two releases and a new mapping touch the slots.
  predicate TouchesSlots(step: Step) {
    step.Swap? || step.Discard? || step.DropShared? || step.MapNew? || step.Close?
  }

  lemma SlotsUntouched(s: State, step: Step)
    requires ThreadsInv(s) && Enabled(s, step) && !TouchesSlots(step)
    ensures var s' := Apply(s, step);
            && s'.latest == s.latest && s'.mdls == s.mdls && s'.released == s.released
            && (step.t in s'.threads ==> Owned(s'.threads[step.t].local) == Owned(s.threads[step.t].local))
  {
    hide CopiedTo, NewMapping, TotalOf, Busy, Acquired, Released;
    assert ThreadOk(s, s.threads[step.t]);
  }

  lemma OwnersAfterClose(s: State)
    requires Inv(s) && Enabled(s, Close)
    ensures OwnersInv(Apply(s, Close)) && Apply(s, Close).mdls == {}
  {
    forall u | u in s.threads ensures Owned(s.threads[u].local) == {} {
      assert ThreadOk(s, s.threads[u]);
    }
    assert s.mdls == Owned(s.latest);
  }

  lemma OwnersPreserved(s: State, step: Step)
    requires Inv(s) && Enabled(s, step)
    ensures OwnersInv(Apply(s, step))
  {
    if step.Close? {
      OwnersAfterClose(s);
    } else if TouchesSlots(step) {
      OwnersAfterTouch(s, step);
    } else {
      MovesOne(s, step);
      SlotsUntouched(s, step);
      OwnersSame(s, Apply(s, step), step.t);
    }
  }

  lemma OwnersAfterTouch(s: State, step: Step)
    requires Inv(s) && Enabled(s, step) && TouchesSlots(step) && !step.Close?
    ensures OwnersInv(Apply(s, step))
  {
    match step {
      case Swap(t, want) => OwnersAfterSwap(s, t, want);
      case Discard(t) => OwnersAfterDiscard(s, t);
      case DropShared(t) => OwnersAfterDrop(s, t);
      case MapNew(t, id) => OwnersAfterMap(s, t, id);
    }
  }

  lemma OwnersAfterSwap(s: State, t: Tid, want: int)
    requires Inv(s) && Enabled(s, Swap(t, want))
    ensures OwnersInv(Apply(s, Swap(t, want)))
  {
    MovesOne(s, Swap(t, want));
    OwnersSwapped(s, Apply(s, Swap(t, want)), t);
  }

  lemma OwnersAfterDiscard(s: State, t: Tid)
    requires Inv(s) && Enabled(s, Discard(t))
    ensures OwnersInv(Apply(s, Discard(t)))
  {
    MovesOne(s, Discard(t));
    OwnersLocalDropped(s, Apply(s, Discard(t)), t);
  }

  lemma OwnersAfterDrop(s: State, t: Tid)
    requires Inv(s) && Enabled(s, DropShared(t))
    ensures OwnersInv(Apply(s, DropShared(t)))
  {
    assert ThreadOk(s, s.threads[t]);
    MovesOne(s, DropShared(t));
    OwnersSharedDropped(s, Apply(s, DropShared(t)), t);
  }

  lemma OwnersAfterMap(s: State, t: Tid, id: nat)
    requires Inv(s) && Enabled(s, MapNew(t, id))
    ensures OwnersInv(Apply(s, MapNew(t, id)))
  {
    assert ThreadOk(s, s.threads[t]);
    NewMappingOk(s, t, id);
    MovesOne(s, MapNew(t, id));
    OwnersAdded(s, Apply(s, MapNew(t, id)), t, id);
  }

  lemma InvPreserved(s: State, step: Step)
    requires Inv(s) && Enabled(s, step)
    ensures Inv(Apply(s, step))
  {
    LockPreserved(s, step);
    FilePreserved(s, step);
    ThreadsPreserved(s, step);
    SlotsPreserved(s, step);
    OwnersPreserved(s, step);
  }

  lemma {:induction false} Reachable(start: State, steps: seq<Step>)
    requires Init(start) && Run(start, steps)
    ensures Inv(After(start, steps))
  {
    if steps == [] {
      assert Readers(start) == {} && Writers(start) == {};
    } else {
      Reachable(start, steps[..|steps| - 1]);
      InvPreserved(After(start, steps[..|steps| - 1]), steps[|steps| - 1]);
    }
  }

  // One thread that has the file to itself takes it through such states only: what it does
  // between two returns is a run of its steps.
  lemma ReachedInv(start: State, s: State)
    requires Init(start) && AweAlone.Reaches(start, s)
    ensures Inv(s)
  {
    hide Inv;
    var steps :| Run(start, steps) && After(start, steps) == s;
    Reachable(start, steps);
  }

  // In every interleaving the counters are the numbers of holders, and a thread that
  // holds the write lock is the only one that holds anything.
  lemma ExclusionInEveryRun(start: State, steps: seq<Step>)
    requires Init(start) && Run(start, steps)
    ensures var s := After(start, steps);
            && s.lock == Counters(|Readers(s)|, |Writers(s)|)
            && |Writers(s)| <= 1
            && forall t, u :: t in Writers(s) && u in Readers(s) + Writers(s) ==> u == t
  {
    Reachable(start, steps);
    var s := After(start, steps);
    if t :| t in Writers(s) {
      assert Writers(s) == {t};
    }
  }

  ghost predicate InSlot(s: State, p: PageContext) {
    p == s.latest || exists t :: t in s.threads && p == s.threads[t].local
  }

  // The page is a live mapping of allocated memory that holds this part of the file.
  ghost predicate ShowsFile(s: State, p: PageContext) {
    && p.mdl.Mdl? && p.mdl.id in s.mdls
    && p.mdl.run in s.memory && 0 <= p.mdl.start && p.mdl.start + PAGE <= |s.memory[p.mdl.run]|
    && WellFormed(s.blocks, s.memory)
    && 0 <= p.pageBase && p.pageBase + PAGE <= |Flat(s.blocks, s.memory)|
    && Flat(s.blocks, s.memory)[p.pageBase..p.pageBase + PAGE] == s.memory[p.mdl.run][p.mdl.start..p.mdl.start + PAGE]
  }

  // In every interleaving a thread gets in exactly when no other holder keeps it out: a
  // reader while there is no writer and a count left, a writer while there is no holder at
  // all, and a reader that wants to write while it is the only one.
  lemma RefusedExactly(start: State, steps: seq<Step>, t: Tid, eof: int)
    requires Init(start) && Run(start, steps) && t in After(start, steps).threads
    ensures var s := After(start, steps);
            var th := s.threads[t];
            && (Enabled(s, AcquireRead(t)) <==> !s.closed && th.pc.Idle? && Writers(s) == {} && |Readers(s)| < LONG_MAX)
            && (Enabled(s, AcquireWrite(t, eof)) <==> !s.closed && th.pc.Idle? && Writers(s) + Readers(s) == {})
            && (Enabled(s, Upgrade(t, eof)) <==> th.pc.Reading? && th.local.mdl.NoMdl? && Writers(s) + Readers(s) == {t})
  {
    hide Run, After, Enabled, LockInv;
    Reachable(start, steps);
    RefusedIn(After(start, steps), t, eof);
  }

  lemma RefusedIn(s: State, t: Tid, eof: int)
    requires LockInv(s) && t in s.threads
    ensures var th := s.threads[t];
            && (Enabled(s, AcquireRead(t)) <==> !s.closed && th.pc.Idle? && Writers(s) == {} && |Readers(s)| < LONG_MAX)
            && (Enabled(s, AcquireWrite(t, eof)) <==> !s.closed && th.pc.Idle? && Writers(s) + Readers(s) == {})
            && (Enabled(s, Upgrade(t, eof)) <==> th.pc.Reading? && th.local.mdl.NoMdl? && Writers(s) + Readers(s) == {t})
  {
    hide Readers, Writers, Exclusive, TotalOf, Busy, Shows;
    Holding(s, t);
    BusyIs(s.lock, Readers(s), Writers(s), t);
  }

  lemma BusyIs(c: Counters, readers: set<Tid>, writers: set<Tid>, t: Tid)
    requires c == Counters(|readers|, |writers|)
    ensures Busy(c, false, false) <==> writers != {} || |readers| >= LONG_MAX
    ensures Busy(c, true, false) <==> writers + readers != {}
    ensures t in readers && t !in writers ==> (Busy(c, true, true) <==> writers + readers != {t})
  {
    EmptyCount(writers);
    EmptyCount(readers);
    EmptyCount(readers - {t});
    if t in readers {
      assert readers == (readers - {t}) + {t};
    }
  }

  lemma Holding(s: State, t: Tid)
    requires t in s.threads
    ensures (t in Readers(s) <==> HoldsRead(s.threads[t].pc)) && (t in Writers(s) <==> HoldsWrite(s.threads[t].pc))
  {
  }

  lemma EmptyCount(q: set<Tid>)
    ensures q == {} <==> |q| == 0
  {
  }

  lemma SlotShowsFile(s: State, p: PageContext)
    requires WellFormed(s.blocks, s.memory) && Maps(p, s.blocks, s.memory)
    requires p.mdl.Mdl? && Owned(p) <= s.mdls
    ensures ShowsFile(s, p)
  {
    FindPage(s.blocks, s.memory, p.pageBase);
  }

  // In every interleaving no slot, shared or local, refers to memory that has been
  // freed or to a mapping that has been released.
  lemma NoDanglingPage(start: State, steps: seq<Step>, p: PageContext)
    requires Init(start) && Run(start, steps)
    requires InSlot(After(start, steps), p) && p.mdl.Mdl?
    ensures ShowsFile(After(start, steps), p)
  {
    Reachable(start, steps);
    SlotShowsFile(After(start, steps), p);
  }

  // In every interleaving a copy into the mapped page changes exactly the bytes of
  // the page of the file that the thread wanted.
  lemma CopyHitsFile(start: State, steps: seq<Step>, t: Tid, at: nat, data: seq<Byte>)
    requires Init(start) && Run(start, steps)
    requires Enabled(After(start, steps), Copy(t, at, data))
    ensures var s, s' := After(start, steps), Apply(After(start, steps), Copy(t, at, data));
            var base := PageBase(s.threads[t].pc.want);
            && WellFormed(s.blocks, s.memory) && WellFormed(s'.blocks, s'.memory)
            && 0 <= base && base + at + |data| <= |Flat(s.blocks, s.memory)|
            && Flat(s'.blocks, s'.memory) == Splice(Flat(s.blocks, s.memory), base + at, data)
  {
    Reachable(start, steps);
    CopyInState(After(start, steps), t, at, data);
  }

  lemma CopyInState(s: State, t: Tid, at: nat, data: seq<Byte>)
    requires Inv(s) && Enabled(s, Copy(t, at, data))
    ensures var s' := Apply(s, Copy(t, at, data));
            var base := PageBase(s.threads[t].pc.want);
            && WellFormed(s'.blocks, s'.memory)
            && 0 <= base && base + at + |data| <= |Flat(s.blocks, s.memory)|
            && Flat(s'.blocks, s'.memory) == Splice(Flat(s.blocks, s.memory), base + at, data)
  {
    assert ThreadOk(s, s.threads[t]);
    CopyThrough(s.blocks, s.memory, s.threads[t].local, at, data);
  }

  lemma CopyThrough(bs: seq<Block>, m: Memory, page: PageContext, at: nat, data: seq<Byte>)
    requires WellFormed(bs, m) && page.mdl.Mdl? && Maps(page, bs, m) && at + |data| <= PAGE
    ensures var m' := CopiedTo(m, page.mdl, at, data);
            && WellFormed(bs, m')
            && 0 <= page.pageBase && page.pageBase + at + |data| <= |Flat(bs, m)|
            && Flat(bs, m') == Splice(Flat(bs, m), page.pageBase + at, data)
  {
    hide Flat, WellFormed;
    FindFits(bs, m, page.pageBase);
    StoreThrough(bs, m, CopiedTo(m, page.mdl, at, data), page.pageBase, at, data);
  }

  // In every interleaving each live mapping has exactly one owner among the shared
  // slot and the threads' slots, and a mapping once released never becomes live again.
  lemma OneOwner(start: State, steps: seq<Step>, id: nat)
    requires Init(start) && Run(start, steps)
    requires id in After(start, steps).mdls
    ensures var s := After(start, steps);
            && id !in s.released
            && (id in Owned(s.latest) ==> forall t :: t in s.threads ==> id !in Owned(s.threads[t].local))
            && (id !in Owned(s.latest) ==> exists t :: t in s.threads && id in Owned(s.threads[t].local))
            && forall t, u :: t in s.threads && u in s.threads && id in Owned(s.threads[t].local) && id in Owned(s.threads[u].local) ==> t == u
  {
    Reachable(start, steps);
  }

  // The mapping that a step frees, if it holds one.
  function Frees(s: State, step: Step): set<nat> {
    match step
    case Discard(t) => if t in s.threads then Owned(s.threads[t].local) else {}
    case DropShared(_) => Owned(s.latest)
    case Close => Owned(s.latest)
    case _ => {}
  }

  // Every mapping that a step frees is live before and was never freed before; after the
  // step it is not live, and nothing else has gone away. So no mapping is freed twice.
  lemma ReleasedOnce(start: State, steps: seq<Step>, step: Step)
    requires Init(start) && Run(start, steps) && Enabled(After(start, steps), step)
    ensures var s, s', freed := After(start, steps), Apply(After(start, steps), step), Frees(After(start, steps), step);
            && freed <= s.mdls && freed !! s.released
            && s'.released == s.released + freed
            && s.mdls - s'.mdls == freed && s'.mdls !! s'.released
  {
    Reachable(start, steps);
    ReleasedInState(After(start, steps), step);
  }

  lemma ReleasedInState(s: State, step: Step)
    requires Inv(s) && Enabled(s, step)
    ensures var s', freed := Apply(s, step), Frees(s, step);
            && freed <= s.mdls && freed !! s.released
            && s'.released == s.released + freed
            && s.mdls - s'.mdls == freed && s'.mdls !! s'.released
  {
    hide LockInv, FileInv, SlotsInv, ThreadsInv, Apply, TotalOf, Busy, Acquired, Released, CopiedTo, WellFormed;
    OwnersPreserved(s, step);
    if !step.Close? && !TouchesSlots(step) {
      SlotsUntouched(s, step);
    } else {
      MdlsAfter(s, step);
    }
  }

  lemma MdlsAfter(s: State, step: Step)
    requires Enabled(s, step) && TouchesSlots(step)
    ensures var s', freed := Apply(s, step), Frees(s, step);
            && s'.released == s.released + freed
            && s'.mdls - s.mdls !! freed && s.mdls - s'.mdls == freed * s.mdls
  {
    hide TotalOf, Busy, Acquired, Released, CopiedTo, Owned, WellFormed;
  }

  // While a thread holds the read lock and not the write lock, no other thread's step
  // changes the block list, the size, or which memory is allocated.
  lemma StableWhileReading(start: State, steps: seq<Step>, step: Step, t: Tid)
    requires Init(start) && Run(start, steps) && Enabled(After(start, steps), step)
    requires var s := After(start, steps);
             t in s.threads && HoldsRead(s.threads[t].pc) && !HoldsWrite(s.threads[t].pc)
    requires !step.Close? && step.t != t
    ensures var s, s' := After(start, steps), Apply(After(start, steps), step);
            s'.blocks == s.blocks && s'.virtualSize == s.virtualSize && s'.memory.Keys == s.memory.Keys
  {
    hide Inv;
    Reachable(start, steps);
    StableStep(After(start, steps), step, t);
  }

  lemma StableStep(s: State, step: Step, t: Tid)
    requires Inv(s) && Enabled(s, step) && !step.Close? && step.t != t
    requires t in s.threads && HoldsRead(s.threads[t].pc) && !HoldsWrite(s.threads[t].pc)
    ensures var s' := Apply(s, step); s'.blocks == s.blocks && s'.virtualSize == s.virtualSize && s'.memory.Keys == s.memory.Keys
  {
    hide FileInv, SlotsInv, OwnersInv, Maps, Flat, TotalOf, NewMapping, Busy, Released, Acquired;
    assert !HoldsWrite(s.threads[step.t].pc);
    if step.Copy? {
      CopyKeepsSizes(s.memory, s.threads[step.t].local.mdl, step.at, step.data);
    }
  }

  // A search under the read lock always finds a block with the whole page in it.
  lemma SearchSucceeds(start: State, steps: seq<Step>, t: Tid)
    requires Init(start) && Run(start, steps)
    requires var s := After(start, steps); t in s.threads && s.threads[t].pc.Mapping?
    ensures var s := After(start, steps);
            var base := PageBase(s.threads[t].pc.want);
            var found := Find(s.blocks, base);
            && found != [] && found[0].run in s.memory
            && 0 <= base - found[0].offset && base - found[0].offset + PAGE <= |s.memory[found[0].run]|
  {
    Reachable(start, steps);
    var s := After(start, steps);
    WantedPage(s, t);
    FindPage(s.blocks, s.memory, PageBase(s.threads[t].pc.want));
  }

  // Closing after all requests have ended leaves no memory and no mapping.
  lemma NothingLeftAfterClose(start: State, steps: seq<Step>)
    requires Init(start) && Run(start, steps) && Enabled(After(start, steps), Close)
    ensures var s := Apply(After(start, steps), Close);
            s.mdls == {} && s.memory == map[] && s.lock == Counters(0, 0)
  {
    Reachable(start, steps);
    var s := After(start, steps);
    OwnersAfterClose(s);
    assert Readers(s) == {} && Writers(s) == {};
  }
}
