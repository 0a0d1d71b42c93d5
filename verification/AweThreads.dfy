// All interleavings of the read, write and resize requests of any number of threads
// on one AWE_FS_Alloc file. One step is one region under the spin lock, one release
// or creation of a page mapping, one block added or freed, or one copy.

module AweThreads {
  import opened Bytes
  import opened AweBlocks
  import opened AweLock
  import opened AwePages

  type Tid = nat

  datatype Pc =
    | Idle
    | Reading                              // read lock held, between chunks
    | Exchanged(want: int)                 // slots swapped, old shared page in hand
    | Mapping(want: int)                   // slot empty, about to search the block list
    | Copying(want: int)                   // the wanted page is mapped
    | Finished                             // page parked, read lock still held
    | Resizing(upgraded: bool, eof: int)   // write lock held (and read lock if upgraded)
    | Freeing(upgraded: bool, eof: int)
    | Growing(upgraded: bool, eof: int)

  datatype Thread = Thread(pc: Pc, local: PageContext)

  datatype State = State(
    lock: Counters,
    virtualSize: int,
    blocks: seq<Block>,
    memory: Memory,
    latest: PageContext,
    mdls: set<nat>,
    released: set<nat>,
    threads: map<Tid, Thread>,
    closed: bool)

  datatype Step =
    | AcquireRead(t: Tid)
    | Hit(t: Tid, want: int)
    | Swap(t: Tid, want: int)
    | HitShared(t: Tid)
    | Discard(t: Tid)
    | MapNew(t: Tid, id: nat)
    | MapFails(t: Tid)
    | Copy(t: Tid, at: nat, data: seq<Byte>)
    | Finish(t: Tid)
    | GiveUp(t: Tid)
    | AcquireWrite(t: Tid, eof: int)
    | Upgrade(t: Tid, eof: int)
    | DropShared(t: Tid)
    | FreeBlock(t: Tid)
    | StartGrowing(t: Tid)
    | AddBlock(t: Tid, run: RunId, data: seq<Byte>)
    | GrowFails(t: Tid)
    | SetEnd(t: Tid)
    | Close

  predicate HoldsWrite(pc: Pc) {
    pc.Resizing? || pc.Freeing? || pc.Growing?
  }

  predicate HoldsRead(pc: Pc) {
    !pc.Idle? && (HoldsWrite(pc) ==> pc.upgraded)
  }

  ghost function Readers(s: State): set<Tid> {
    set t | t in s.threads && HoldsRead(s.threads[t].pc)
  }

  ghost function Writers(s: State): set<Tid> {
    set t | t in s.threads && HoldsWrite(s.threads[t].pc)
  }

  predicate Shows(p: PageContext, want: int) {
    want >= 0 && p.pageBase == PageBase(want) && p.mdl.Mdl?
  }

  function Set(s: State, t: Tid, pc: Pc, local: PageContext): State {
    s.(threads := s.threads[t := Thread(pc, local)])
  }

  function Unmapped(p: PageContext): PageContext {
    p.(mdl := NoMdl)
  }

  ghost predicate Init(s: State) {
    && s.lock == Counters(0, 0) && s.virtualSize == 0 && s.blocks == [] && s.memory == map[]
    && s.latest == EMPTY_PAGE && s.mdls == {} && s.released == {} && !s.closed
    && forall t :: t in s.threads ==> s.threads[t] == Thread(Idle, EMPTY_PAGE)
  }

  // What the code has checked, in the thread's own flow of control, when it takes a step.
  ghost predicate Enabled(s: State, step: Step) {
    if step.Close? then
      !s.closed && forall t :: t in s.threads ==> s.threads[t].pc.Idle?
    else
      && step.t in s.threads
      && var th := s.threads[step.t];
         match step
         case AcquireRead(t) => th.pc.Idle? && !s.closed && !Busy(s.lock, false, false)
         case Hit(t, want) => th.pc.Reading? && want < s.virtualSize && Shows(th.local, want)
         case Swap(t, want) => th.pc.Reading? && want < s.virtualSize && !Shows(th.local, want)
         case HitShared(t) => th.pc.Exchanged? && Shows(th.local, th.pc.want)
         case Discard(t) => th.pc.Exchanged? && !Shows(th.local, th.pc.want)
         case MapNew(t, id) => th.pc.Mapping? && id !in s.mdls && id !in s.released
         case MapFails(t) => th.pc.Mapping?
         case Copy(t, at, data) => th.pc.Copying? && at + |data| <= PAGE
         case Finish(t) => th.pc.Finished?
         case GiveUp(t) => th.pc.Reading? && th.local.mdl.NoMdl?
         case AcquireWrite(t, eof) => th.pc.Idle? && !s.closed && !Busy(s.lock, true, false)
         case Upgrade(t, eof) => th.pc.Reading? && th.local.mdl.NoMdl? && !Busy(s.lock, true, true)
         case DropShared(t) => th.pc.Resizing? && TotalOf(s) - th.pc.eof >= PAGE
         case FreeBlock(t) => th.pc.Freeing? && s.blocks != [] && s.blocks[0].offset >= th.pc.eof
         case StartGrowing(t) => th.pc.Resizing? && TotalOf(s) < th.pc.eof
         case AddBlock(t, run, data) => th.pc.Growing? && TotalOf(s) < th.pc.eof && run !in s.memory && |data| >= PAGE
         case GrowFails(t) => th.pc.Growing?
         case SetEnd(t) =>
           || (th.pc.Resizing? && 0 <= TotalOf(s) - th.pc.eof < PAGE)
           || (th.pc.Freeing? && (s.blocks == [] || s.blocks[0].offset < th.pc.eof))
           || (th.pc.Growing? && TotalOf(s) >= th.pc.eof)
  }

  // AWE_FS_AllocGetTotalSize
  function TotalOf(s: State): int {
    if s.blocks == [] || s.blocks[0].run !in s.memory then 0 else Total(s.blocks, s.memory)
  }

  // The run that MapPage finds for a position, and where in it the page starts.
  function NewPage(bs: seq<Block>, want: int, id: nat): PageContext {
    var base := PageBase(want);
    var found := Find(bs, base);
    PageContext(base, if found == [] then NoMdl else Mdl(id, found[0].run, base - found[0].offset))
  }

  function NewMapping(s: State, want: int, id: nat): PageContext {
    NewPage(s.blocks, want, id)
  }

  // Memory after a copy through a mapping; a mapping of a freed run has no meaning.
  function CopiedTo(m: Memory, mdl: Mdl, at: nat, data: seq<Byte>): Memory {
    if mdl.Mdl? && mdl.run in m && 0 <= mdl.start && mdl.start + at + |data| <= |m[mdl.run]| then
      m[mdl.run := Splice(m[mdl.run], mdl.start + at, data)]
    else
      m
  }

  function Apply(s: State, step: Step): State {
    if step.Close? then
      s.(virtualSize := 0, blocks := [], memory := map[], latest := Unmapped(s.latest),
         mdls := s.mdls - Owned(s.latest), released := s.released + Owned(s.latest), closed := true)
    else if step.t !in s.threads then
      s
    else
      ApplyThread(s, step, s.threads[step.t])
  }

  function ApplyThread(s: State, step: Step, th: Thread): State
    requires !step.Close?
  {
    match step
    case AcquireRead(t) => Set(s, t, Reading, EMPTY_PAGE).(lock := Acquired(s.lock, false))
    case Hit(t, want) => Set(s, t, Copying(want), th.local)
    case Swap(t, want) => Set(s, t, Exchanged(want), s.latest).(latest := th.local)
    case HitShared(t) => Set(s, t, Copying(if th.pc.Exchanged? then th.pc.want else -1), th.local)
    case Discard(t) =>
      var want := if th.pc.Exchanged? then th.pc.want else -1;
      Set(s, t, if want < 0 then Finished else Mapping(want), EMPTY_PAGE)
        .(mdls := s.mdls - Owned(th.local), released := s.released + Owned(th.local))
    case MapNew(t, id) =>
      var want := if th.pc.Mapping? then th.pc.want else 0;
      var page := NewMapping(s, want, id);
      Set(s, t, Copying(want), page).(mdls := s.mdls + Owned(page))
    case MapFails(t) => Set(s, t, Idle, EMPTY_PAGE).(lock := Released(s.lock, true, false))
    case Copy(t, at, data) => Set(s, t, Reading, th.local).(memory := CopiedTo(s.memory, th.local.mdl, at, data))
    case Finish(t) => Set(s, t, Idle, EMPTY_PAGE).(lock := Released(s.lock, true, false))
    case GiveUp(t) => Set(s, t, Idle, EMPTY_PAGE).(lock := Released(s.lock, true, false))
    case AcquireWrite(t, eof) => Set(s, t, Resizing(false, eof), EMPTY_PAGE).(lock := Acquired(s.lock, true))
    case Upgrade(t, eof) => Set(s, t, Resizing(true, eof), EMPTY_PAGE).(lock := Acquired(s.lock, true))
    case DropShared(t) =>
      Set(s, t, if th.pc.Resizing? then Freeing(th.pc.upgraded, th.pc.eof) else th.pc, EMPTY_PAGE)
        .(latest := Unmapped(s.latest), mdls := s.mdls - Owned(s.latest), released := s.released + Owned(s.latest))
    case FreeBlock(t) =>
      var rest := if s.blocks == [] then s else s.(blocks := s.blocks[1..], memory := s.memory - {s.blocks[0].run});
      Set(rest, t, th.pc, th.local)
    case StartGrowing(t) =>
      Set(s, t, if th.pc.Resizing? then Growing(th.pc.upgraded, th.pc.eof) else th.pc, EMPTY_PAGE)
    case AddBlock(t, run, data) =>
      Set(s, t, th.pc, th.local).(blocks := [Block(TotalOf(s), run)] + s.blocks, memory := s.memory[run := data])
    case GrowFails(t) =>
      Set(s, t, Idle, EMPTY_PAGE).(lock := Released(s.lock, HoldsRead(th.pc), true))
    case SetEnd(t) =>
      Set(s, t, if HoldsRead(th.pc) then Reading else Idle, EMPTY_PAGE)
        .(lock := Released(s.lock, false, true), virtualSize := if HoldsWrite(th.pc) then th.pc.eof else s.virtualSize)
  }

  // A run: the states that a list of steps goes through, each step enabled.
  ghost predicate Run(start: State, steps: seq<Step>) {
    steps == [] ||
    (Run(start, steps[..|steps| - 1]) && Enabled(After(start, steps[..|steps| - 1]), steps[|steps| - 1]))
  }

  ghost function After(start: State, steps: seq<Step>): State {
    if steps == [] then start else Apply(After(start, steps[..|steps| - 1]), steps[|steps| - 1])
  }
}
