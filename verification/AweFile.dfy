// An open AWE_FS_Alloc file: the block list, the one cached page mapping, and the
// read, write and resize requests that go through them.

module AweFile {
  import opened Bytes
  import opened AweBlocks
  import opened AweLock
  import opened AwePages
  import opened AweAlone
  import T = AweThreads

  datatype Status =
    | Success | DeviceBusy | EndOfFile | NoMemory | InsufficientResources
    | InvalidParameter | DriverInternalError

  datatype Operation = Read | Write

  // What the system grants to one request: the mapping of the caller's buffer, each page
  // mapping by its number, and each new block by the number of its run, which takes free
  // memory, a descriptor, and pages.
  datatype System = System(buffer: bool, mapping: nat -> bool, memory: nat -> bool, descriptor: nat -> bool, pages: nat -> seq<Byte>)

  predicate Gives(system: System, run: nat) {
    system.memory(run) && system.descriptor(run) && |system.pages(run)| >= PAGE
  }

  // The mappings with numbers from one up to another were granted.
  predicate MapsGiven(system: System, from: nat, to: nat) {
    from <= to && forall n :: from <= n < to ==> system.mapping(n)
  }

  // A resize loses no byte that lies below both sizes.
  ghost predicate Kept(before: seq<Byte>, after: seq<Byte>) {
    forall i :: 0 <= i < |before| && i < |after| ==> after[i] == before[i]
  }

  // The file after the first done bytes of data have been written at position at: it
  // is long enough for all of data, the old bytes outside the written range are kept,
  // and nothing is said about other bytes that growing exposes.
  ghost predicate Written(before: seq<Byte>, after: seq<Byte>, at: nat, data: seq<Byte>, done: nat) {
    && done <= |data|
    && |after| == (if at + |data| > |before| then at + |data| else |before|)
    && after[at..at + done] == data[..done]
    && forall i :: 0 <= i < |before| && !(at <= i < at + done) ==> after[i] == before[i]
  }

  // File content c and buffer b after n bytes are copied between position offset of
  // the one and position at of the other.
  ghost function Transfer(op: Operation, c: seq<Byte>, b: seq<Byte>, offset: nat, at: nat, n: nat): (seq<Byte>, seq<Byte>)
    requires offset + n <= |c| && at + n <= |b|
  {
    match op
    case Read => (c, Splice(b, at, c[offset..offset + n]))
    case Write => (Splice(c, offset, b[at..at + n]), b)
  }

  lemma TransferNone(op: Operation, c: seq<Byte>, b: seq<Byte>, offset: nat, at: nat)
    requires offset <= |c| && at <= |b|
    ensures Transfer(op, c, b, offset, at, 0) == (c, b)
  {
    assert Splice(b, at, []) == b && Splice(c, offset, []) == c;
  }

  lemma TransferOn(op: Operation, c: seq<Byte>, b: seq<Byte>, offset: nat, n: nat, more: nat)
    requires offset + n + more <= |c| && n + more <= |b|
    ensures var first := Transfer(op, c, b, offset, 0, n);
            && |first.0| == |c| && |first.1| == |b|
            && Transfer(op, first.0, first.1, offset + n, n, more) == Transfer(op, c, b, offset, 0, n + more)
  {
    if op.Read? {
      SpliceAppend(b, 0, c[offset..offset + n], c[offset + n..offset + n + more]);
      assert c[offset..offset + n] + c[offset + n..offset + n + more] == c[offset..offset + (n + more)];
    } else {
      SpliceAppend(c, offset, b[..n], b[n..n + more]);
      assert b[..n] + b[n..n + more] == b[..n + more];
    }
  }

  // How much of left bytes lies in the page of position absolute.
  function ChunkSize(absolute: nat, left: nat): (n: nat)
    ensures absolute % PAGE + n <= PAGE && n <= left && (left > 0 ==> n > 0)
  {
    if absolute % PAGE + left > PAGE then PAGE - absolute % PAGE else left
  }

  function Length(size: int): nat {
    if size < 0 then 0 else size
  }

  // What a read of |b| bytes at offset answers on a file of some size with content c: when
  // it fails, the bytes of the chunks before the page that could not be mapped are in the
  // buffer already.
  ghost predicate ReadOutcome(status: Status, information: nat, size: int, c: seq<Byte>, b: seq<Byte>, b': seq<Byte>, offset: nat)
    requires |c| == Length(size)
  {
    && (status != Success || b == [] ==> information == 0)
    && (status == Success && b != [] ==>
          && offset <= size
          && information == (if offset + |b| <= |c| then |b| else |c| - offset)
          && b' == Splice(b, 0, c[offset..offset + information]))
    && (status != Success || b == [] ==>
          || b' == b
          || (status == InsufficientResources && exists done: nat :: Loaded(c, b, b', offset, done)))
  }

  // The buffer after the first done bytes from an offset have been read into it.
  ghost predicate Loaded(c: seq<Byte>, b: seq<Byte>, b': seq<Byte>, offset: nat, done: nat) {
    done < |b| && offset + done <= |c| && b' == Splice(b, 0, c[offset..offset + done])
  }

  lemma NoRead(status: Status, size: int, c: seq<Byte>, b: seq<Byte>, offset: nat)
    requires |c| == Length(size) && status != Success
    ensures ReadOutcome(status, 0, size, c, b, b, offset)
  {
  }

  // A read that copied done of the bytes that there are.
  lemma ReadIs(status: Status, done: nat, size: int, c: seq<Byte>, b: seq<Byte>, b': seq<Byte>, offset: nat, length: nat)
    requires |c| == Length(size) && b != [] && offset <= size && length == if offset + |b| > size then size - offset else |b|
    requires done <= length && status == if done < length then InsufficientResources else Success
    requires (c, b') == Transfer(Read, c, b, offset, 0, done)
    ensures ReadOutcome(status, if status == Success then done else 0, size, c, b, b', offset)
  {
    assert status != Success ==> Loaded(c, b, b', offset, done);
  }

  // What a write of data at offset does to file content c: all of it, none of it,
  // or, when a page cannot be mapped, the chunks before that page.
  ghost predicate WriteOutcome(status: Status, information: nat, c: seq<Byte>, c': seq<Byte>, data: seq<Byte>, offset: nat) {
    && information == (if status == Success then |data| else 0)
    && (status == Success && data != [] ==> Written(c, c', offset, data, |data|))
    && (status != Success || data == [] ==>
          || c' == c
          || (status == InsufficientResources && exists done :: Written(c, c', offset, data, done)))
  }

  // When a request with a buffer and a valid range fails, and with what: nextMdl and nextRun
  // are the numbers that the next mapping and the next block would have had.
  predicate Because(status: Status, op: Operation, system: System, c: Counters, size: int, offset: nat, length: nat, nextMdl: nat,
                    nextRun: nat)
  {
    if !system.buffer then status == InsufficientResources
    else if Busy(c, false, false) then status == DeviceBusy
    else WhileHeld(status, op, system, Acquired(c, false), size, offset, length, nextMdl, nextRun)
  }

  // The same when the read lock is held.
  predicate WhileHeld(status: Status, op: Operation, system: System, c: Counters, size: int, offset: nat, length: nat, nextMdl: nat,
                     nextRun: nat)
  {
    var grows := op.Write? && offset + length > size;
    if op.Read? && offset > size then status == EndOfFile
    else if grows && Busy(c, true, true) then status == DeviceBusy
    else
      || status == Success
      || (status == InsufficientResources && !system.mapping(nextMdl))
      || (status == NoMemory && grows && !Gives(system, nextRun))
  }

  lemma RequiredPages(total: nat, size: int)
    requires total % PAGE == 0 && total < size
    ensures total + PagesFor(size - total) == PagesFor(size)
    ensures 0 < PagesFor(size - total) && PagesFor(size - total) % PAGE == 0
    ensures size <= PagesFor(size) < size + PAGE
  {
  }

  lemma SameKept(c: seq<Byte>)
    ensures Kept(c, c)
  {
  }

  // The first bytes of data copied into a file that has been made long enough for all.
  lemma CopiedIs(c: seq<Byte>, grown: seq<Byte>, c': seq<Byte>, at: nat, data: seq<Byte>, done: nat)
    requires Kept(c, grown) && done <= |data| && |grown| == (if at + |data| > |c| then at + |data| else |c|)
    requires c' == Splice(grown, at, data[..done])
    ensures Written(c, c', at, data, done)
  {
  }

  lemma OneGiven(system: System, n: nat)
    ensures MapsGiven(system, n, n) && (system.mapping(n) ==> MapsGiven(system, n, n + 1))
  {
  }

  // Where a thread is after MapPage.
  function Mapped(newOffset: int, status: Status): T.Pc {
    if status != Success then T.Mapping(newOffset) else if newOffset < 0 then T.Finished else T.Copying(newOffset)
  }

  class AweFile {
    var virtualSize: int
    var blocks: seq<Block>
    var latest: PageContext
    var lock: Counters

    // The system around the file: physical runs and live page mappings.
    var memory: Memory
    var mdls: set<nat>
    var nextRun: nat
    var nextMdl: nat

    ghost predicate Valid()
      reads this
    {
      FileOk() && SlotsOk()
    }

    ghost predicate FileOk()
      reads this`virtualSize, this`blocks, this`memory, this`nextRun
    {
      BlocksOk() && virtualSize <= Total(blocks, memory)
    }

    // The block list is well formed and no run is allocated outside it.
    ghost predicate BlocksOk()
      reads this`blocks, this`memory, this`nextRun
    {
      && WellFormed(blocks, memory)
      && memory.Keys == Runs(blocks)
      && (forall r :: r in memory ==> r < nextRun)
    }

    ghost predicate SlotsOk()
      reads this`blocks, this`memory, this`latest, this`mdls, this`nextMdl
    {
      && WellFormed(blocks, memory)
      && Maps(latest, blocks, memory)
      && Owned(latest) <= mdls
      && (forall x :: x in mdls ==> x < nextMdl)
    }

    // The file as a plain byte array. A negative size, which a caller can set, is that of a
    // file without bytes.
    ghost function Content(): (c: seq<Byte>)
      reads this
      requires Valid()
      ensures |c| == Length(virtualSize)
    {
      FlatSize(blocks, memory);
      Flat(blocks, memory)[..Length(virtualSize)]
    }

    // The file as one thread sees it that has it to itself, at pc with a page in its slot.
    ghost function View(pc: T.Pc, local: PageContext): T.State
      reads this
    {
      T.State(lock, virtualSize, blocks, memory, latest, mdls, Gone(nextMdl, mdls), map[0 := T.Thread(pc, local)], false)
    }

    constructor ()
      ensures Valid() && Content() == [] && blocks == [] && mdls == {}
      ensures lock == Counters(0, 0) && T.Init(View(T.Idle, EMPTY_PAGE))
    {
      virtualSize, blocks, latest, lock := 0, [], EMPTY_PAGE, Counters(0, 0);
      memory, mdls, nextRun, nextMdl := map[], {}, 0, 0;
    }

    method TryAcquireProtection(forWrite: bool, ownsReadLock: bool) returns (status: Status)
      modifies this`lock
      ensures status == if Busy(old(lock), forWrite, ownsReadLock) then DeviceBusy else Success
      ensures lock == if status == Success then Acquired(old(lock), forWrite) else old(lock)
    {
      if forWrite {
        if lock.writers >= 1 || lock.readers >= (if ownsReadLock then 2 else 1) {
          return DeviceBusy;
        }
        lock := Counters(lock.readers, lock.writers + 1);
      } else {
        if lock.writers >= 1 || lock.readers >= LONG_MAX {
          return DeviceBusy;
        }
        lock := Counters(lock.readers + 1, lock.writers);
      }
      return Success;
    }

    method ReleaseProtection(forRead: bool, forWrite: bool)
      modifies this`lock
      ensures lock == Released(old(lock), forRead, forWrite)
    {
      if forWrite {
        lock := Counters(lock.readers, lock.writers - 1);
      }
      if forRead {
        lock := Counters(lock.readers - 1, lock.writers);
      }
    }

    // IoFreeMdl: a mapping can only be released while it is live.
    method FreeMdl(id: nat)
      requires id in mdls
      modifies this`mdls
      ensures mdls == old(mdls) - {id}
    {
      mdls := mdls - {id};
    }

    method ReleasePage(p: PageContext)
      requires Owned(p) <= mdls
      modifies this`mdls
      ensures mdls == old(mdls) - Owned(p)
    {
      if p.mdl.Mdl? {
        FreeMdl(p.mdl.id);
      }
    }

    // IoAllocateMdl, IoBuildPartialMdl and MmGetSystemAddressForMdlSafe, any of
    // which can run out of resources.
    method BuildPartialMdl(run: RunId, start: int, system: System) returns (mdl: Mdl)
      modifies this`mdls, this`nextMdl
      ensures mdl.Mdl? <==> system.mapping(old(nextMdl))
      ensures mdl.NoMdl? ==> mdls == old(mdls) && nextMdl == old(nextMdl)
      ensures mdl.Mdl? ==> mdl == Mdl(old(nextMdl), run, start) && mdls == old(mdls) + {mdl.id} && nextMdl == mdl.id + 1
    {
      if !system.mapping(nextMdl) {
        return NoMdl;
      }
      mdl := Mdl(nextMdl, run, start);
      mdls := mdls + {nextMdl};
      nextMdl := nextMdl + 1;
    }

    method ExchangeMapPage(current: PageContext) returns (next: PageContext)
      modifies this`latest
      ensures next == old(latest) && latest == current
    {
      next := latest;
      latest := current;
    }

    // The list from the block that contains base on; empty if there is none.
    method FindBlock(base: int) returns (block: seq<Block>)
      ensures block == Find(blocks, base)
    {
      block := blocks;
      while block != [] && block[0].offset > base
        invariant Find(block, base) == Find(blocks, base)
        decreases |block|
      {
        block := block[1..];
      }
    }

    // Make current the page that contains newOffset, or (for a negative offset) park
    // it in the shared slot. Whatever page either slot held before, a successful call
    // ends with the right page, and a failed one leaves the caller's slot empty. Alone, it
    // is a run of the thread's steps.
    method MapPage(newOffset: int, current: PageContext, system: System) returns (status: Status, next: PageContext)
      requires Valid() && newOffset < Total(blocks, memory)
      requires Maps(current, blocks, memory)
      requires Owned(current) <= mdls && Owned(current) !! Owned(latest)
      modifies this`latest, this`mdls, this`nextMdl
      ensures Valid()
      ensures status == Success || (status == InsufficientResources && newOffset >= 0)
      // It needs a new mapping only for a page that neither slot shows.
      ensures var needed := newOffset >= 0 && !T.Shows(current, newOffset) && !T.Shows(old(latest), newOffset);
              && status == (if needed && !system.mapping(old(nextMdl)) then InsufficientResources else Success)
              && nextMdl == (if needed && status == Success then old(nextMdl) + 1 else old(nextMdl))
      ensures status == Success && newOffset >= 0 ==>
                next.mdl.Mdl? && next.pageBase == PageBase(newOffset)
      ensures newOffset < 0 ==> latest == current
      ensures status != Success || newOffset < 0 ==> next == EMPTY_PAGE
      ensures Maps(next, blocks, memory) && Owned(next) <= mdls && Owned(next) !! Owned(latest)
      // Every mapping that entered is still in one of the two slots or was released.
      ensures mdls - Owned(next) - Owned(latest) == old(mdls) - Owned(current) - old(Owned(latest))
      ensures newOffset < virtualSize ==> Reaches(old(View(T.Reading, current)), View(Mapped(newOffset, status), next))
    {
      hide Reaches, Gone, Find, WellFormed;
      var base := PageBase(newOffset);
      if newOffset >= 0 && current.pageBase == base && current.mdl.Mdl? {
        if newOffset < virtualSize {
          HitsOwn(View(T.Reading, current), current, newOffset);
        }
        return Success, current;
      }
      status, next := MapExchanged(newOffset, current, system);
    }

    // The part after the check of the caller's own page.
    method MapExchanged(newOffset: int, current: PageContext, system: System) returns (status: Status, next: PageContext)
      requires Valid() && newOffset < Total(blocks, memory) && !T.Shows(current, newOffset)
      requires Maps(current, blocks, memory)
      requires Owned(current) <= mdls && Owned(current) !! Owned(latest)
      modifies this`latest, this`mdls, this`nextMdl
      ensures Valid() && latest == current
      ensures status == Success || (status == InsufficientResources && newOffset >= 0)
      ensures var needed := newOffset >= 0 && !T.Shows(old(latest), newOffset);
              && status == (if needed && !system.mapping(old(nextMdl)) then InsufficientResources else Success)
              && nextMdl == (if needed && status == Success then old(nextMdl) + 1 else old(nextMdl))
      ensures status == Success && newOffset >= 0 ==> next.mdl.Mdl? && next.pageBase == PageBase(newOffset)
      ensures status != Success || newOffset < 0 ==> next == EMPTY_PAGE
      ensures Maps(next, blocks, memory) && Owned(next) <= mdls && Owned(next) !! Owned(latest)
      ensures mdls - Owned(next) - Owned(latest) == old(mdls) - Owned(current) - old(Owned(latest))
      ensures newOffset < virtualSize ==> Reaches(old(View(T.Reading, current)), View(Mapped(newOffset, status), next))
    {
      hide Reaches, Gone, Find, WellFormed;
      ghost var s := View(T.Reading, current);
      next := ExchangeMapPage(current);
      ghost var s1 := View(T.Exchanged(newOffset), next);
      if newOffset < virtualSize {
        Swaps(s, current, newOffset);
      }
      var base := PageBase(newOffset);
      if newOffset >= 0 && next.pageBase == base && next.mdl.Mdl? {
        HitsOther(s1, next, newOffset);
        status := Success;
      } else {
        status, next := MapMissed(newOffset, next, system);
      }
      if newOffset < virtualSize {
        Then(s, s1, View(Mapped(newOffset, status), next));
      }
    }

    // And the part after the check of the shared page.
    method MapMissed(newOffset: int, stale: PageContext, system: System) returns (status: Status, next: PageContext)
      requires Valid() && newOffset < Total(blocks, memory) && !T.Shows(stale, newOffset)
      requires Owned(stale) <= mdls && Owned(stale) !! Owned(latest)
      modifies this`mdls, this`nextMdl
      ensures Valid()
      ensures status == (if newOffset >= 0 && !system.mapping(old(nextMdl)) then InsufficientResources else Success)
      ensures nextMdl == if newOffset >= 0 && status == Success then old(nextMdl) + 1 else old(nextMdl)
      ensures status == Success && newOffset >= 0 ==> next.mdl.Mdl? && next.pageBase == PageBase(newOffset)
      ensures status != Success || newOffset < 0 ==> next == EMPTY_PAGE
      ensures Maps(next, blocks, memory) && Owned(next) <= mdls && Owned(next) !! Owned(latest)
      ensures mdls - Owned(next) == old(mdls) - Owned(stale)
      ensures Reaches(old(View(T.Exchanged(newOffset), stale)), View(Mapped(newOffset, status), next))
    {
      hide Reaches, Gone, Find, WellFormed, T.NewPage;
      ghost var s := View(T.Exchanged(newOffset), stale);
      DiscardsPage(s, stale, newOffset, nextMdl);
      ReleasePage(stale);
      if newOffset < 0 {
        return Success, EMPTY_PAGE;
      }
      ghost var s1, n := View(T.Mapping(newOffset), EMPTY_PAGE), nextMdl;
      status, next := MapNewPage(PageBase(newOffset), system);
      if status == Success {
        MapsPage(s1, newOffset, PageBase(newOffset), n, next);
        Then(s, s1, View(T.Copying(newOffset), next));
      } else {
        assert mdls == s1.mdls;
      }
    }

    // The last part of AWE_FS_AllocMapPage: find the block and map its page.
    method MapNewPage(base: nat, system: System) returns (status: Status, next: PageContext)
      requires Valid() && base % PAGE == 0 && base < Total(blocks, memory)
      modifies this`mdls, this`nextMdl
      ensures Valid()
      ensures status == if system.mapping(old(nextMdl)) then Success else InsufficientResources
      ensures status == Success ==> next.mdl.Mdl? && next.pageBase == base && next.mdl.id !in old(mdls)
      ensures status != Success ==> next == EMPTY_PAGE
      ensures Maps(next, blocks, memory)
      ensures mdls == old(mdls) + Owned(next)
      ensures status == Success ==>
                next == T.NewPage(blocks, base, old(nextMdl)) && nextMdl == old(nextMdl) + 1
      ensures status != Success ==> nextMdl == old(nextMdl)
    {
      next := EMPTY_PAGE;
      var block := FindBlock(base);
      FindFits(blocks, memory, base);
      if block == [] {
        return DriverInternalError, next;
      }
      var start := base - block[0].offset;
      if |memory[block[0].run]| <= start {
        return DriverInternalError, next;
      }
      var mdl := BuildPartialMdl(block[0].run, start, system);
      if mdl.NoMdl? {
        return InsufficientResources, next;
      }
      return Success, PageContext(base, mdl);
    }

    // MmAllocatePagesForMdl: the pages that there are, with any content, but no more than
    // the requested number of bytes.
    method AllocatePages(bytes: int, pages: seq<Byte>) returns (data: seq<Byte>)
      requires 0 < bytes <= MAX_BLOCK && bytes % PAGE == 0
      ensures data == if |pages| > bytes then pages[..bytes] else pages
    {
      data := pages;
      if |data| > bytes {
        data := data[..bytes];
      }
    }

    // AWE_FS_AllocAddBlock; memory too small for one page is given back.
    method AddBlock(data: seq<Byte>) returns (added: bool)
      requires Valid()
      modifies this`blocks, this`memory, this`nextRun
      ensures Valid()
      ensures added == (|data| >= PAGE)
      ensures !added ==> blocks == old(blocks) && memory == old(memory) && nextRun == old(nextRun)
      ensures added ==> nextRun == old(nextRun) + 1
      ensures added ==>
                && blocks == [Block(old(Total(blocks, memory)), old(nextRun))] + old(blocks)
                && memory == old(memory)[old(nextRun) := data] && old(nextRun) !in old(memory)
      ensures added ==>
                && Total(blocks, memory) == old(Total(blocks, memory)) + PageBase(|data|)
                && Flat(blocks, memory) == old(Flat(blocks, memory)) + data[..PageBase(|data|)]
                && blocks != [] && blocks[0].offset == old(Total(blocks, memory)) && blocks[1..] == old(blocks)
    {
      if PageBase(|data|) == 0 {
        return false;
      }
      LinkBlock(blocks, memory, nextRun, data);
      var offset := if blocks == [] then 0 else blocks[0].offset + PageBase(|memory[blocks[0].run]|);
      memory := memory[nextRun := data];
      blocks := [Block(offset, nextRun)] + blocks;
      nextRun := nextRun + 1;
      return true;
    }

    // Release the shared mapping and every block that starts at or past the new end.
    method FreeTail(eof: int, ghost upgraded: bool)
      requires Valid() && Total(blocks, memory) - eof >= PAGE
      modifies this`blocks, this`memory, this`latest, this`mdls
      ensures BlocksOk() && latest.mdl.NoMdl? && mdls == old(mdls) - old(Owned(latest))
      ensures eof <= Total(blocks, memory) <= old(Total(blocks, memory)) == |old(Flat(blocks, memory))|
      ensures Flat(blocks, memory) == old(Flat(blocks, memory))[..Total(blocks, memory)]
      ensures blocks != [] ==> blocks[0].offset < eof
      ensures latest == T.Unmapped(old(latest))
      ensures Reaches(old(View(T.Resizing(upgraded, eof), EMPTY_PAGE)), View(T.Freeing(upgraded, eof), EMPTY_PAGE))
    {
      hide Reaches, Gone;
      ghost var s := View(T.Resizing(upgraded, eof), EMPTY_PAGE);
      TotalIs(s);
      DropsPage(s, upgraded, eof, nextMdl);
      ReleasePage(latest);
      latest := PageContext(latest.pageBase, NoMdl);
      FlatSize(blocks, memory);
      while blocks != [] && blocks[0].offset >= eof
        invariant BlocksOk()
        invariant eof <= Total(blocks, memory) <= old(Total(blocks, memory))
        invariant |old(Flat(blocks, memory))| == old(Total(blocks, memory))
        invariant Flat(blocks, memory) == old(Flat(blocks, memory))[..Total(blocks, memory)]
        invariant Reaches(s, View(T.Freeing(upgraded, eof), EMPTY_PAGE))
        modifies this`blocks, this`memory
        decreases |blocks|
      {
        ghost var s1 := View(T.Freeing(upgraded, eof), EMPTY_PAGE);
        FreesOne(s1, upgraded, eof);
        FreeFirst();
        Then(s, s1, View(T.Freeing(upgraded, eof), EMPTY_PAGE));
      }
    }

    method FreeFirst()
      requires BlocksOk() && blocks != []
      modifies this`blocks, this`memory
      ensures BlocksOk() && blocks == old(blocks)[1..] && memory == old(memory) - {old(blocks[0].run)}
      ensures Total(blocks, memory) == old(blocks[0].offset) <= old(Total(blocks, memory)) == |old(Flat(blocks, memory))|
      ensures Flat(blocks, memory) == old(Flat(blocks, memory))[..Total(blocks, memory)]
    {
      FlatSize(blocks, memory);
      FlatSize(blocks[1..], memory);
      var run := blocks[0].run;
      FlatFrame(blocks[1..], memory, memory - {run});
      blocks := blocks[1..];
      memory := memory - {run};
    }

    // AWE_FS_AllocSetSize, called with the file to itself. A failed call leaves size
    // and content; a successful one keeps the bytes below both sizes, leaves no block
    // that starts at or past the new size, and never allocates beyond the last page.
    method SetSize(eof: int, system: System, ghost upgraded: bool) returns (status: Status)
      requires Valid()
      modifies this`virtualSize, this`blocks, this`memory, this`nextRun, this`latest, this`mdls
      ensures Valid()
      ensures status == if Total(blocks, memory) < eof then NoMemory else Success
      ensures status == NoMemory ==> !Gives(system, nextRun)
      ensures eof > old(Total(blocks, memory)) || status == Success
      ensures status == Success ==>
                && virtualSize == eof
                && Kept(old(Content()), Content())
                && (forall b :: b in blocks ==> b.offset < eof)
      ensures status != Success ==> virtualSize == old(virtualSize) && Content() == old(Content())
      ensures eof > old(Total(blocks, memory)) ==> Total(blocks, memory) <= PagesFor(eof)
      ensures eof <= old(Total(blocks, memory)) ==> Total(blocks, memory) <= old(Total(blocks, memory))
      ensures Owned(latest) <= old(Owned(latest))
      ensures OtherMdls(EMPTY_PAGE) == old(OtherMdls(EMPTY_PAGE))
      ensures eof <= 0 ==> blocks == [] && latest == T.Unmapped(old(latest))
      ensures Reaches(old(View(T.Resizing(upgraded, eof), EMPTY_PAGE)), Left(status, upgraded))
    {
      hide Reaches;
      FlatSize(blocks, memory);
      Descending(blocks, memory);
      var total := TotalSize();
      if total >= eof {
        Shrink(eof, upgraded);
        return Success;
      }
      status := Grow(eof, system, upgraded);
    }

    // The state when the locks that a resize gives back have been released.
    ghost function Left(status: Status, upgraded: bool): T.State
      reads this
    {
      if status == Success then View(if upgraded then T.Reading else T.Idle, EMPTY_PAGE).(lock := Released(lock, false, true))
      else View(T.Idle, EMPTY_PAGE).(lock := Released(lock, upgraded, true))
    }

    method Shrink(eof: int, ghost upgraded: bool)
      requires Valid() && eof <= Total(blocks, memory)
      modifies this`virtualSize, this`blocks, this`memory, this`latest, this`mdls
      ensures Valid() && virtualSize == eof && Total(blocks, memory) <= old(Total(blocks, memory))
      ensures Kept(old(Content()), Content())
      ensures forall b :: b in blocks ==> b.offset < eof
      ensures Owned(latest) <= old(Owned(latest))
      ensures OtherMdls(EMPTY_PAGE) == old(OtherMdls(EMPTY_PAGE))
      ensures eof <= 0 ==> latest == T.Unmapped(old(latest))
      ensures Reaches(old(View(T.Resizing(upgraded, eof), EMPTY_PAGE)), Left(Success, upgraded))
    {
      hide Flat, Find, Reaches, Gone, Runs, Released;
      ghost var s := View(T.Resizing(upgraded, eof), EMPTY_PAGE);
      FlatSize(blocks, memory);
      TotalIs(s);
      if Total(blocks, memory) - eof >= PAGE {
        FreeTail(eof, upgraded);
        SetsEnd(View(T.Freeing(upgraded, eof), EMPTY_PAGE), T.Freeing(upgraded, eof), upgraded, eof);
        Then(s, View(T.Freeing(upgraded, eof), EMPTY_PAGE), Resized(View(T.Freeing(upgraded, eof), EMPTY_PAGE), upgraded, eof));
      } else {
        SetsEnd(s, T.Resizing(upgraded, eof), upgraded, eof);
      }
      Descending(blocks, memory);
      FlatSize(blocks, memory);
      virtualSize := eof;
    }

    method TotalSize() returns (total: int)
      requires Valid()
      ensures total == Total(blocks, memory)
    {
      total := if blocks == [] then 0 else blocks[0].offset + PageBase(|memory[blocks[0].run]|);
    }

    method Grow(eof: int, system: System, ghost upgraded: bool) returns (status: Status)
      requires Valid() && Total(blocks, memory) < eof
      requires forall b :: b in blocks ==> b.offset < eof
      modifies this`virtualSize, this`blocks, this`memory, this`nextRun
      ensures Valid()
      ensures status == if Total(blocks, memory) < eof then NoMemory else Success
      ensures status == NoMemory ==> !Gives(system, nextRun)
      ensures forall n :: old(nextRun) <= n < nextRun ==> Gives(system, n)
      ensures virtualSize == if status == Success then eof else old(virtualSize)
      ensures |old(Flat(blocks, memory))| == old(Total(blocks, memory)) <= Total(blocks, memory) == |Flat(blocks, memory)|
      ensures Flat(blocks, memory)[..old(Total(blocks, memory))] == old(Flat(blocks, memory))
      ensures Total(blocks, memory) <= PagesFor(eof)
      ensures forall b :: b in blocks ==> b.offset < eof
      ensures Reaches(old(View(T.Resizing(upgraded, eof), EMPTY_PAGE)), Left(status, upgraded))
    {
      hide Flat, Find, Maps, PagesFor, Runs, Owned, Reaches, Gone, Released;
      ghost var s := View(T.Resizing(upgraded, eof), EMPTY_PAGE);
      TotalIs(s);
      BeginsToGrow(s, upgraded, eof);
      FlatSize(blocks, memory);
      RequiredPages(Total(blocks, memory), eof);
      while true
        invariant Valid() && virtualSize == old(virtualSize)
        invariant |old(Flat(blocks, memory))| == old(Total(blocks, memory)) <= Total(blocks, memory) == |Flat(blocks, memory)|
        invariant Flat(blocks, memory)[..old(Total(blocks, memory))] == old(Flat(blocks, memory))
        invariant Total(blocks, memory) <= PagesFor(eof) && Total(blocks, memory) % PAGE == 0
        invariant forall b :: b in blocks ==> b.offset < eof
        invariant forall n :: old(nextRun) <= n < nextRun ==> Gives(system, n)
        invariant Reaches(s, View(T.Growing(upgraded, eof), EMPTY_PAGE))
        decreases PagesFor(eof) - Total(blocks, memory)
      {
        ghost var s1 := View(T.Growing(upgraded, eof), EMPTY_PAGE);
        var total := TotalSize();
        if total >= eof {
          TotalIs(s1);
          EndsAfter(s, s1, upgraded, eof);
          virtualSize := eof;
          return Success;
        }
        var more := AddMore(eof, system, upgraded);
        if !more {
          GivesUpAfter(s, s1, upgraded, eof);
          return NoMemory;
        }
        Then(s, s1, View(T.Growing(upgraded, eof), EMPTY_PAGE));
      }
    }

    // One round of the loop: as much memory as is missing, but no more than the largest
    // block, or what the allocator grants of that.
    method AddMore(eof: int, system: System, ghost upgraded: bool) returns (more: bool)
      requires Valid() && Total(blocks, memory) < eof && Total(blocks, memory) % PAGE == 0
      requires forall b :: b in blocks ==> b.offset < eof
      modifies this`blocks, this`memory, this`nextRun
      ensures Valid()
      ensures |old(Flat(blocks, memory))| == old(Total(blocks, memory)) <= Total(blocks, memory) == |Flat(blocks, memory)|
      ensures Flat(blocks, memory)[..old(Total(blocks, memory))] == old(Flat(blocks, memory))
      ensures Total(blocks, memory) <= PagesFor(eof) && Total(blocks, memory) % PAGE == 0
      ensures forall b :: b in blocks ==> b.offset < eof
      ensures more <==> Gives(system, old(nextRun))
      ensures nextRun == if more then old(nextRun) + 1 else old(nextRun)
      ensures if more then Total(blocks, memory) > old(Total(blocks, memory)) else blocks == old(blocks) && memory == old(memory)
      ensures Reaches(old(View(T.Growing(upgraded, eof), EMPTY_PAGE)), View(T.Growing(upgraded, eof), EMPTY_PAGE))
    {
      hide Flat, Find, Maps, PagesFor, Runs, Owned, Reaches, Gone;
      ghost var s := View(T.Growing(upgraded, eof), EMPTY_PAGE);
      Stays(s);
      TotalIs(s);
      FlatSize(blocks, memory);
      var total := TotalSize();
      RequiredPages(total, eof);
      if !system.memory(nextRun) || !system.descriptor(nextRun) {
        return false;
      }
      var bytes := if eof - total > MAX_BLOCK then MAX_BLOCK else PagesFor(eof - total);
      var data := AllocatePages(bytes, system.pages(nextRun));
      ghost var run := nextRun;
      more := AddBlock(data);
      if more {
        AddsOne(s, upgraded, eof, run, data);
      }
      FlatSize(blocks, memory);
    }

    // RtlCopyMemory out of and into a mapped page.
    method LoadPage(p: PageContext, at: nat, n: nat) returns (d: seq<Byte>)
      requires Valid() && p.mdl.Mdl? && p.mdl.id in mdls && Maps(p, blocks, memory)
      requires at + n <= PAGE && p.pageBase + at + n <= virtualSize
      ensures d == Content()[p.pageBase + at..p.pageBase + at + n]
    {
      FlatSize(blocks, memory);
      FindPage(blocks, memory, p.pageBase);
      var run := memory[p.mdl.run];
      d := run[p.mdl.start + at..p.mdl.start + at + n];
      SubSlice(run, p.mdl.start, p.mdl.start + PAGE, at, at + n);
      SubSlice(Flat(blocks, memory), p.pageBase, p.pageBase + PAGE, at, at + n);
      SubSlice(Flat(blocks, memory), 0, virtualSize, p.pageBase + at, p.pageBase + at + n);
    }

    method StorePage(p: PageContext, at: nat, d: seq<Byte>)
      requires Valid() && p.mdl.Mdl? && p.mdl.id in mdls && Maps(p, blocks, memory)
      requires at + |d| <= PAGE && p.pageBase + at + |d| <= virtualSize
      modifies this`memory
      ensures Valid() && Total(blocks, memory) == old(Total(blocks, memory))
      ensures Content() == Splice(old(Content()), p.pageBase + at, d)
      ensures memory == T.CopiedTo(old(memory), p.mdl, at, d)
    {
      hide Flat, Runs, Splice;
      FlatSize(blocks, memory);
      FindFits(blocks, memory, p.pageBase);
      var run := memory[p.mdl.run];
      ghost var after := memory[p.mdl.run := Splice(run, p.mdl.start + at, d)];
      StoreThrough(blocks, memory, after, p.pageBase, at, d);
      SplicePrefix(Flat(blocks, memory), virtualSize, p.pageBase + at, d);
      memory := memory[p.mdl.run := Splice(run, p.mdl.start + at, d)];
    }

    // A request's own page slot: it agrees with the file and is not the shared slot.
    ghost predicate SlotOk(p: PageContext)
      reads this`blocks, this`memory, this`latest, this`mdls
      requires WellFormed(blocks, memory)
    {
      Maps(p, blocks, memory) && Owned(p) <= mdls && Owned(p) !! Owned(latest)
    }

    // Mappings that belong to neither the shared slot nor the slot p.
    ghost function OtherMdls(p: PageContext): set<nat>
      reads this`latest, this`mdls
    {
      mdls - Owned(p) - Owned(latest)
    }

    // One round of the chunk loop.
    method CopyChunk(op: Operation, absolute: nat, bytes: nat, buffer: array<Byte>, at: nat, current: PageContext,
                     system: System)
      returns (status: Status, next: PageContext)
      requires Valid() && SlotOk(current)
      requires 0 < bytes && absolute % PAGE + bytes <= PAGE && absolute + bytes <= virtualSize
      requires at + bytes <= buffer.Length
      modifies this`latest, this`mdls, this`nextMdl, this`memory, buffer
      ensures Valid() && SlotOk(next) && OtherMdls(next) == old(OtherMdls(current))
      ensures MapsGiven(system, old(nextMdl), nextMdl)
      ensures status == Success || (status == InsufficientResources && next == EMPTY_PAGE && !system.mapping(nextMdl))
      ensures (Content(), buffer[..]) ==
              Transfer(op, old(Content()), old(buffer[..]), absolute, at, if status == Success then bytes else 0)
      ensures Reaches(old(View(T.Reading, current)), View(if status == Success then T.Reading else T.Mapping(absolute), next))
    {
      hide Reaches, Flat, Find, Runs, Gone, MapsGiven, Splice;
      OneGiven(system, nextMdl);
      ghost var s := View(T.Reading, current);
      var inPage := absolute % PAGE;
      TransferNone(op, Content(), buffer[..], absolute, at);
      status, next := MapPage(absolute, current, system);
      if status != Success {
        return;
      }
      ghost var s1 := View(T.Copying(absolute), next);
      if op.Read? {
        var d := LoadPage(next, inPage, bytes);
        CopyInto(buffer, at, d);
        CopiesOut(s1, absolute, next);
      } else {
        Copies(s1, absolute, next, inPage, buffer[at..at + bytes]);
        StorePage(next, inPage, buffer[at..at + bytes]);
      }
      Then(s, s1, View(T.Reading, next));
    }

    // The next chunk of a transfer of length bytes between the file at offset and the
    // buffer, of which done bytes have been copied since c and b.
    method CopyNext(op: Operation, offset: nat, length: nat, buffer: array<Byte>, done: nat, current: PageContext, system: System,
                    ghost c: seq<Byte>, ghost b: seq<Byte>)
      returns (status: Status, next: PageContext, done': nat)
      requires Valid() && SlotOk(current)
      requires done < length && offset + length <= virtualSize && length <= buffer.Length
      requires offset + length <= |c| && length <= |b|
      requires (Content(), buffer[..]) == Transfer(op, c, b, offset, 0, done)
      modifies this`latest, this`mdls, this`nextMdl, this`memory, buffer
      ensures Valid() && SlotOk(next) && OtherMdls(next) == old(OtherMdls(current))
      ensures MapsGiven(system, old(nextMdl), nextMdl)
      ensures status == Success || (status == InsufficientResources && next == EMPTY_PAGE && !system.mapping(nextMdl))
      ensures if status == Success then done < done' <= length else done' == done
      ensures (Content(), buffer[..]) == Transfer(op, c, b, offset, 0, done')
      ensures Reaches(old(View(T.Reading, current)), View(if status == Success then T.Reading else T.Mapping(offset + done), next))
    {
      hide Reaches, Flat, Find, Runs, Gone, Splice;
      var absolute := offset + done;
      var bytes := ChunkSize(absolute, length - done);
      status, next := CopyChunk(op, absolute, bytes, buffer, done, current, system);
      TransferOn(op, c, b, offset, done, if status == Success then bytes else 0);
      done' := if status == Success then done + bytes else done;
    }

    // The chunk loop of AWE_FS_AllocReadWrite: page by page, through whatever page
    // the shared slot holds.
    method CopyPages(op: Operation, offset: nat, length: nat, buffer: array<Byte>, system: System)
      returns (status: Status, done: nat)
      requires Valid() && offset + length <= virtualSize && length <= buffer.Length
      modifies this`latest, this`mdls, this`nextMdl, this`memory, buffer
      ensures Valid()
      ensures MapsGiven(system, old(nextMdl), nextMdl)
      ensures status == if done < length then InsufficientResources else Success
      ensures done <= length && (status != Success ==> !system.mapping(nextMdl))
      ensures (Content(), buffer[..]) == Transfer(op, old(Content()), old(buffer[..]), offset, 0, done)
      ensures OtherMdls(EMPTY_PAGE) == old(OtherMdls(EMPTY_PAGE))
      ensures Reaches(old(View(T.Reading, EMPTY_PAGE)), View(T.Idle, EMPTY_PAGE).(lock := Released(lock, true, false)))
    {
      hide Reaches, Released, Flat, Find, Runs, Gone, Splice;
      ghost var s := View(T.Reading, EMPTY_PAGE);
      Stays(s);
      status, done := Success, 0;
      var current := EMPTY_PAGE;
      TransferNone(op, Content(), buffer[..], offset, 0);
      while done < length
        invariant Valid() && SlotOk(current) && OtherMdls(current) == old(OtherMdls(EMPTY_PAGE))
        invariant done <= length && status == Success && MapsGiven(system, old(nextMdl), nextMdl)
        invariant (Content(), buffer[..]) == Transfer(op, old(Content()), old(buffer[..]), offset, 0, done)
        invariant Reaches(s, View(T.Reading, current))
      {
        ghost var s1 := View(T.Reading, current);
        ghost var want := offset + done;
        status, current, done := CopyNext(op, offset, length, buffer, done, current, system, old(Content()), old(buffer[..]));
        if status != Success {
          Then(s, s1, View(T.Mapping(want), EMPTY_PAGE));
          ThenLeaves(s, View(T.Mapping(want), EMPTY_PAGE), T.Mapping(want));
          return;
        }
        Then(s, s1, View(T.Reading, current));
      }
      ghost var s2 := View(T.Reading, current);
      Park(current, system);
      Then(s, s2, View(T.Finished, EMPTY_PAGE));
      ThenLeaves(s, View(T.Finished, EMPTY_PAGE), T.Finished);
    }

    // The end of a request: its page becomes the shared one, and the page that was
    // shared is released.
    method Park(current: PageContext, system: System)
      requires Valid() && SlotOk(current)
      modifies this`latest, this`mdls, this`nextMdl
      ensures Valid() && OtherMdls(EMPTY_PAGE) == old(OtherMdls(current)) && nextMdl == old(nextMdl)
      ensures virtualSize >= 0 ==> Reaches(old(View(T.Reading, current)), View(T.Finished, EMPTY_PAGE))
    {
      hide Reaches;
      var status, next := MapPage(-1, current, system);
    }

    // AWE_FS_AllocReadWrite on the plain byte array that the file stands for.
    method ReadWrite(op: Operation, byteOffset: int, buffer: array<Byte>, system: System)
      returns (status: Status, information: nat)
      requires Valid() && buffer.Length < 0x1_0000_0000
      modifies this, buffer
      ensures Valid() && lock == old(lock)
      ensures OtherMdls(EMPTY_PAGE) == old(OtherMdls(EMPTY_PAGE))
      ensures status == InvalidParameter <==> byteOffset < 0 || byteOffset + buffer.Length >= 0x8000_0000_0000_0000
      ensures status == InvalidParameter ==> information == 0 && Content() == old(Content()) && buffer[..] == old(buffer[..])
      ensures status != InvalidParameter ==>
                if buffer.Length == 0 then status == Success
                else Because(status, op, system, old(lock), old(virtualSize), byteOffset, buffer.Length, nextMdl, nextRun)
      ensures op.Read? && status != InvalidParameter ==>
                && virtualSize == old(virtualSize) && Content() == old(Content())
                && ReadOutcome(status, information, virtualSize, Content(), old(buffer[..]), buffer[..], byteOffset)
      ensures op.Write? && status != InvalidParameter ==>
                && buffer[..] == old(buffer[..])
                && WriteOutcome(status, information, old(Content()), Content(), buffer[..], byteOffset)
      ensures Reaches(old(View(T.Idle, EMPTY_PAGE)), View(T.Idle, EMPTY_PAGE))
    {
      hide Reaches, Busy;
      ghost var s := View(T.Idle, EMPTY_PAGE);
      Stays(s);
      var length := buffer.Length;
      if byteOffset < 0 || byteOffset + length >= 0x8000_0000_0000_0000 {
        return InvalidParameter, 0;
      }
      if length == 0 {
        return Success, 0;
      }
      if !system.buffer {
        return InsufficientResources, 0;
      }
      status := TryAcquireProtection(false, false);
      if status != Success {
        return status, 0;
      }
      Begins(s);
      ghost var s1 := View(T.Reading, EMPTY_PAGE);
      if op.Read? {
        status, information := ReadLocked(byteOffset, buffer, system);
      } else {
        status, information := WriteLocked(byteOffset, buffer, system);
      }
      Then(s, s1, View(T.Idle, EMPTY_PAGE));
    }

    // The two operations of AWE_FS_AllocReadWrite from the point where the read
    // lock is held to the point where it has been released.
    method ReadLocked(byteOffset: nat, buffer: array<Byte>, system: System) returns (status: Status, information: nat)
      requires Valid() && buffer.Length > 0
      modifies this`lock, this`latest, this`mdls, this`nextMdl, this`memory, buffer
      ensures Valid() && lock == Released(old(lock), true, false)
      ensures OtherMdls(EMPTY_PAGE) == old(OtherMdls(EMPTY_PAGE))
      ensures WhileHeld(status, Read, system, old(lock), virtualSize, byteOffset, buffer.Length, nextMdl, nextRun)
      ensures Content() == old(Content())
      ensures ReadOutcome(status, information, virtualSize, Content(), old(buffer[..]), buffer[..], byteOffset)
      ensures Reaches(old(View(T.Reading, EMPTY_PAGE)), View(T.Idle, EMPTY_PAGE))
    {
      hide Reaches, Flat, Find, Maps, Runs, Owned, Gone, Released, ReadOutcome, Splice;
      if byteOffset > virtualSize {
        NoRead(EndOfFile, virtualSize, Content(), buffer[..], byteOffset);
        Leaves(View(T.Reading, EMPTY_PAGE), T.Reading, EMPTY_PAGE);
        ReleaseProtection(true, false);
        return EndOfFile, 0;
      }
      var length := buffer.Length;
      if byteOffset + length > virtualSize {
        length := virtualSize - byteOffset;
      }
      ghost var c, b := Content(), buffer[..];
      status, information := CopyPages(Read, byteOffset, length, buffer, system);
      ReleaseProtection(true, false);
      ReadIs(status, information, virtualSize, c, b, buffer[..], byteOffset, length);
      if status != Success {
        information := 0;
      }
    }

    method WriteLocked(byteOffset: nat, buffer: array<Byte>, system: System) returns (status: Status, information: nat)
      requires Valid() && buffer.Length > 0
      modifies this, buffer
      ensures Valid() && lock == Released(old(lock), true, false)
      ensures OtherMdls(EMPTY_PAGE) == old(OtherMdls(EMPTY_PAGE))
      ensures WhileHeld(status, Write, system, old(lock), old(virtualSize), byteOffset, buffer.Length, nextMdl, nextRun)
      ensures buffer[..] == old(buffer[..])
      ensures WriteOutcome(status, information, old(Content()), Content(), buffer[..], byteOffset)
      ensures Reaches(old(View(T.Reading, EMPTY_PAGE)), View(T.Idle, EMPTY_PAGE))
    {
      hide Reaches, Flat, Find, Maps, Runs, Owned, Gone, Released, WellFormed, Kept, Written, Splice;
      ghost var s := View(T.Reading, EMPTY_PAGE);
      Stays(s);
      SameKept(Content());
      if byteOffset + buffer.Length > virtualSize {
        status := GrowFor(byteOffset + buffer.Length, system);
        if status != Success {
          return status, 0;
        }
      }
      ghost var grown, s1 := Content(), View(T.Reading, EMPTY_PAGE);
      var done;
      status, done := CopyPages(Write, byteOffset, buffer.Length, buffer, system);
      ReleaseProtection(true, false);
      Then(s, s1, View(T.Idle, EMPTY_PAGE));
      information := if status == Success then done else 0;
      assert buffer[..][0..0 + done] == buffer[..][..done];
      CopiedIs(old(Content()), grown, Content(), byteOffset, buffer[..], done);
    }

    // The part of a write past the end of the file that runs under the upgraded lock.
    // On failure the read lock is gone as well.
    method GrowFor(newSize: int, system: System) returns (status: Status)
      requires Valid()
      modifies this`lock, this`virtualSize, this`blocks, this`memory, this`nextRun, this`latest, this`mdls
      ensures Valid() && OtherMdls(EMPTY_PAGE) == old(OtherMdls(EMPTY_PAGE))
      ensures if Busy(old(lock), true, true) then status == DeviceBusy
              else status == Success || (status == NoMemory && !Gives(system, nextRun))
      ensures status == Success ==>
                && lock == old(lock) && virtualSize == newSize
                && Kept(old(Content()), Content())
      ensures status != Success ==> lock == Released(old(lock), true, false) && virtualSize == old(virtualSize) && Content() == old(Content())
      ensures Reaches(old(View(T.Reading, EMPTY_PAGE)), View(if status == Success then T.Reading else T.Idle, EMPTY_PAGE))
    {
      hide Reaches;
      ghost var s := View(T.Reading, EMPTY_PAGE);
      status := TryAcquireProtection(true, true);
      if status != Success {
        Leaves(s, T.Reading, EMPTY_PAGE);
        ReleaseProtection(true, false);
        return;
      }
      BeginsToResize(s, true, newSize);
      ghost var s1 := View(T.Resizing(true, newSize), EMPTY_PAGE);
      status := SetSize(newSize, system, true);
      if status != Success {
        ReleaseProtection(true, true);
        Then(s, s1, View(T.Idle, EMPTY_PAGE));
        return;
      }
      ReleaseProtection(false, true);
      Then(s, s1, View(T.Reading, EMPTY_PAGE));
    }

    // The end-of-file and allocation cases of AWE_FS_AllocSetInformation.
    method SetEndOfFile(eof: int, system: System) returns (status: Status)
      requires Valid()
      modifies this
      ensures Valid() && lock == old(lock) && OtherMdls(EMPTY_PAGE) == old(OtherMdls(EMPTY_PAGE))
      ensures status ==
              if Busy(old(lock), true, false) then DeviceBusy
              else if Total(blocks, memory) < eof then NoMemory
              else Success
      ensures status == NoMemory ==> !Gives(system, nextRun) && old(Total(blocks, memory)) < eof
      ensures status == Success ==>
                && virtualSize == eof
                && Kept(old(Content()), Content())
      ensures status != Success ==> virtualSize == old(virtualSize) && Content() == old(Content())
      ensures Reaches(old(View(T.Idle, EMPTY_PAGE)), View(T.Idle, EMPTY_PAGE))
    {
      hide Reaches;
      ghost var s := View(T.Idle, EMPTY_PAGE);
      Stays(s);
      status := TryAcquireProtection(true, false);
      if status != Success {
        return;
      }
      BeginsToResize(s, false, eof);
      ghost var s1 := View(T.Resizing(false, eof), EMPTY_PAGE);
      status := SetSize(eof, system, false);
      ReleaseProtection(false, true);
      Then(s, s1, View(T.Idle, EMPTY_PAGE));
    }

    // AWE_FS_AllocClose: with no request in progress the shared slot owns the only
    // mapping, and closing leaves no memory and no mapping behind.
    method Close(system: System)
      requires Valid() && mdls == Owned(latest)
      modifies this
      ensures Valid() && memory == map[] && mdls == {} && blocks == []
      ensures Reaches(old(View(T.Idle, EMPTY_PAGE)), View(T.Idle, EMPTY_PAGE).(closed := true))
    {
      hide Reaches;
      assert OtherMdls(EMPTY_PAGE) == {};
      ghost var s := View(T.Idle, EMPTY_PAGE);
      Closes(s);
      GoneFreed(nextMdl, mdls, Owned(latest));
      assert s.mdls - Owned(s.latest) == {};
      var status := SetSize(0, system, false);
      assert memory == map[];
    }
  }
}
