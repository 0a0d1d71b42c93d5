// The steps of one thread that has an AWE_FS_Alloc file to itself, put together to what the
// code does between two returns.

module AweAlone {
  import opened Bytes
  import opened AweBlocks
  import opened AweLock
  import opened AwePages
  import opened AweThreads

  // Some run leads from one state to another.
  ghost predicate Reaches(s: State, s': State) {
    exists steps :: Run(s, steps) && After(s, steps) == s'
  }

  lemma Stays(s: State)
    ensures Reaches(s, s)
  {
    assert Run(s, []) && After(s, []) == s;
  }

  lemma OneStep(s: State, step: Step)
    requires Enabled(s, step)
    ensures Reaches(s, Apply(s, step))
  {
    hide Enabled, Apply;
    assert [step][..0] == [];
    assert Run(s, [step]) && After(s, [step]) == Apply(s, step);
  }

  lemma {:induction false} RunsJoin(s: State, steps: seq<Step>, more: seq<Step>)
    requires Run(s, steps) && Run(After(s, steps), more)
    ensures Run(s, steps + more) && After(s, steps + more) == After(After(s, steps), more)
    decreases |more|
  {
    hide Enabled, Apply;
    if more == [] {
      assert steps + more == steps;
    } else {
      var rest := more[..|more| - 1];
      RunsJoin(s, steps, rest);
      assert (steps + more)[..|steps + more| - 1] == steps + rest;
      assert (steps + more)[|steps + more| - 1] == more[|more| - 1];
    }
  }

  lemma Then(s1: State, s2: State, s3: State)
    requires Reaches(s1, s2) && Reaches(s2, s3)
    ensures Reaches(s1, s3)
  {
    hide Run, After;
    var steps :| Run(s1, steps) && After(s1, steps) == s2;
    var more :| Run(s2, more) && After(s2, more) == s3;
    RunsJoin(s1, steps, more);
  }

  // The state with one thread, at pc with a page in its slot.
  function At(s: State, pc: Pc, local: PageContext): State {
    s.(threads := map[0 := Thread(pc, local)])
  }

  predicate Is(s: State, pc: Pc, local: PageContext) {
    s.threads == map[0 := Thread(pc, local)] && !s.closed
  }

  lemma Begins(s: State)
    requires Is(s, Idle, EMPTY_PAGE) && !Busy(s.lock, false, false)
    ensures Reaches(s, At(s, Reading, EMPTY_PAGE).(lock := Acquired(s.lock, false)))
  {
    hide Reaches, Busy, Acquired;
    OneStep(s, AcquireRead(0));
    assert Apply(s, AcquireRead(0)) == At(s, Reading, EMPTY_PAGE).(lock := Acquired(s.lock, false));
  }

  lemma Leaves(s: State, pc: Pc, local: PageContext)
    requires Is(s, pc, local) && (pc.Mapping? || pc.Finished? || (pc.Reading? && local.mdl.NoMdl?))
    ensures Reaches(s, At(s, Idle, EMPTY_PAGE).(lock := Released(s.lock, true, false)))
  {
    hide Reaches, Released;
    var step := if pc.Mapping? then MapFails(0) else if pc.Finished? then Finish(0) else GiveUp(0);
    OneStep(s, step);
    assert Apply(s, step) == At(s, Idle, EMPTY_PAGE).(lock := Released(s.lock, true, false));
  }

  // The page is in the thread's own slot, or in the shared one, or in neither.
  lemma HitsOwn(s: State, p: PageContext, want: int)
    requires Is(s, Reading, p) && want < s.virtualSize && Shows(p, want)
    ensures Reaches(s, At(s, Copying(want), p))
  {
    hide Reaches;
    OneStep(s, Hit(0, want));
    assert Apply(s, Hit(0, want)) == At(s, Copying(want), p);
  }

  lemma Swaps(s: State, p: PageContext, want: int)
    requires Is(s, Reading, p) && want < s.virtualSize && !Shows(p, want)
    ensures Reaches(s, At(s, Exchanged(want), s.latest).(latest := p))
  {
    hide Reaches, Shows;
    OneStep(s, Swap(0, want));
    assert Apply(s, Swap(0, want)) == At(s, Exchanged(want), s.latest).(latest := p);
  }

  lemma HitsOther(s: State, p: PageContext, want: int)
    requires Is(s, Exchanged(want), p) && Shows(p, want)
    ensures Reaches(s, At(s, Copying(want), p))
  {
    hide Reaches, Shows;
    OneStep(s, HitShared(0));
    assert Apply(s, HitShared(0)) == At(s, Copying(want), p);
  }

  lemma Discards(s: State, p: PageContext, want: int)
    requires Is(s, Exchanged(want), p) && !Shows(p, want)
    ensures Reaches(s, At(s, if want < 0 then Finished else Mapping(want), EMPTY_PAGE)
                         .(mdls := s.mdls - Owned(p), released := s.released + Owned(p)))
  {
    hide Reaches, Shows, Owned;
    OneStep(s, Discard(0));
    assert Apply(s, Discard(0)) ==
      At(s, if want < 0 then Finished else Mapping(want), EMPTY_PAGE).(mdls := s.mdls - Owned(p), released := s.released + Owned(p));
  }

  lemma MapsNew(s: State, want: int, id: nat)
    requires Is(s, Mapping(want), EMPTY_PAGE) && id !in s.mdls && id !in s.released
    ensures var page := NewMapping(s, want, id); Reaches(s, At(s, Copying(want), page).(mdls := s.mdls + Owned(page)))
  {
    hide Reaches, NewMapping, Owned;
    var page := NewMapping(s, want, id);
    OneStep(s, MapNew(0, id));
    assert Apply(s, MapNew(0, id)) == At(s, Copying(want), page).(mdls := s.mdls + Owned(page));
  }

  lemma Copies(s: State, want: int, p: PageContext, at: nat, data: seq<Byte>)
    requires Is(s, Copying(want), p) && at + |data| <= PAGE
    ensures Reaches(s, At(s, Reading, p).(memory := CopiedTo(s.memory, p.mdl, at, data)))
  {
    hide Reaches, CopiedTo;
    OneStep(s, Copy(0, at, data));
    assert Apply(s, Copy(0, at, data)) == At(s, Reading, p).(memory := CopiedTo(s.memory, p.mdl, at, data));
  }

  // Resizing, under the write lock or the upgraded read lock.
  lemma BeginsToResize(s: State, upgraded: bool, eof: int)
    requires Is(s, if upgraded then Reading else Idle, EMPTY_PAGE) && !Busy(s.lock, true, upgraded)
    ensures Reaches(s, At(s, Resizing(upgraded, eof), EMPTY_PAGE).(lock := Acquired(s.lock, true)))
  {
    hide Reaches, Busy, Acquired;
    var step := if upgraded then Upgrade(0, eof) else AcquireWrite(0, eof);
    OneStep(s, step);
    assert Apply(s, step) == At(s, Resizing(upgraded, eof), EMPTY_PAGE).(lock := Acquired(s.lock, true));
  }

  lemma Drops(s: State, upgraded: bool, eof: int)
    requires Is(s, Resizing(upgraded, eof), EMPTY_PAGE) && TotalOf(s) - eof >= PAGE
    ensures Reaches(s, At(s, Freeing(upgraded, eof), EMPTY_PAGE)
                         .(latest := Unmapped(s.latest), mdls := s.mdls - Owned(s.latest), released := s.released + Owned(s.latest)))
  {
    hide Reaches, Owned, TotalOf;
    OneStep(s, DropShared(0));
    assert Apply(s, DropShared(0)) ==
      At(s, Freeing(upgraded, eof), EMPTY_PAGE)
        .(latest := Unmapped(s.latest), mdls := s.mdls - Owned(s.latest), released := s.released + Owned(s.latest));
  }

  lemma FreesOne(s: State, upgraded: bool, eof: int)
    requires Is(s, Freeing(upgraded, eof), EMPTY_PAGE) && s.blocks != [] && s.blocks[0].offset >= eof
    ensures Reaches(s, s.(blocks := s.blocks[1..], memory := s.memory - {s.blocks[0].run}))
  {
    hide Reaches;
    OneStep(s, FreeBlock(0));
    assert Apply(s, FreeBlock(0)) == s.(blocks := s.blocks[1..], memory := s.memory - {s.blocks[0].run});
  }

  lemma BeginsToGrow(s: State, upgraded: bool, eof: int)
    requires Is(s, Resizing(upgraded, eof), EMPTY_PAGE) && TotalOf(s) < eof
    ensures Reaches(s, At(s, Growing(upgraded, eof), EMPTY_PAGE))
  {
    hide Reaches, TotalOf;
    OneStep(s, StartGrowing(0));
    assert Apply(s, StartGrowing(0)) == At(s, Growing(upgraded, eof), EMPTY_PAGE);
  }

  lemma AddsOne(s: State, upgraded: bool, eof: int, run: RunId, data: seq<Byte>)
    requires Is(s, Growing(upgraded, eof), EMPTY_PAGE) && TotalOf(s) < eof && run !in s.memory && |data| >= PAGE
    ensures Reaches(s, s.(blocks := [Block(TotalOf(s), run)] + s.blocks, memory := s.memory[run := data]))
  {
    hide Reaches;
    OneStep(s, AddBlock(0, run, data));
    assert Apply(s, AddBlock(0, run, data)) == s.(blocks := [Block(TotalOf(s), run)] + s.blocks, memory := s.memory[run := data]);
  }

  // The end of a resize: the size is set and the write lock released.
  function Resized(s: State, upgraded: bool, eof: int): State {
    At(s, if upgraded then Reading else Idle, EMPTY_PAGE).(virtualSize := eof, lock := Released(s.lock, false, true))
  }

  lemma SetsEnd(s: State, pc: Pc, upgraded: bool, eof: int)
    requires Is(s, pc, EMPTY_PAGE)
    requires
      || (pc == Resizing(upgraded, eof) && 0 <= TotalOf(s) - eof < PAGE)
      || (pc == Freeing(upgraded, eof) && (s.blocks == [] || s.blocks[0].offset < eof))
      || (pc == Growing(upgraded, eof) && TotalOf(s) >= eof)
    ensures Reaches(s, Resized(s, upgraded, eof))
  {
    hide Reaches, TotalOf, Released;
    OneStep(s, SetEnd(0));
    assert Apply(s, SetEnd(0)) == Resized(s, upgraded, eof);
  }

  lemma GivesUpGrowing(s: State, upgraded: bool, eof: int)
    requires Is(s, Growing(upgraded, eof), EMPTY_PAGE)
    ensures Reaches(s, At(s, Idle, EMPTY_PAGE).(lock := Released(s.lock, upgraded, true)))
  {
    hide Reaches, Released;
    OneStep(s, GrowFails(0));
    assert Apply(s, GrowFails(0)) == At(s, Idle, EMPTY_PAGE).(lock := Released(s.lock, upgraded, true));
  }

  lemma Closes(s: State)
    requires Is(s, Idle, EMPTY_PAGE)
    ensures Reaches(s, s.(virtualSize := 0, blocks := [], memory := map[], latest := Unmapped(s.latest),
                          mdls := s.mdls - Owned(s.latest), released := s.released + Owned(s.latest), closed := true))
  {
    hide Reaches, Owned;
    OneStep(s, Close);
  }

  // Mappings are numbered in order, so those that were released are the ones that are no
  // longer live.
  function Numbers(n: nat): (q: set<nat>)
    ensures forall x: nat :: x in q <==> x < n
  {
    if n == 0 then {} else Numbers(n - 1) + {n - 1}
  }

  function Gone(n: nat, mdls: set<nat>): set<nat> {
    Numbers(n) - mdls
  }

  lemma GoneFreed(n: nat, mdls: set<nat>, freed: set<nat>)
    requires freed <= mdls && forall x :: x in mdls ==> x < n
    ensures Gone(n, mdls - freed) == Gone(n, mdls) + freed
  {
  }

  lemma GoneNew(n: nat, mdls: set<nat>)
    ensures Gone(n + 1, mdls + {n}) == Gone(n, mdls)
  {
  }

  lemma NothingCopied(m: Memory, mdl: Mdl)
    ensures CopiedTo(m, mdl, 0, []) == m
  {
    if mdl.Mdl? && mdl.run in m && 0 <= mdl.start && mdl.start <= |m[mdl.run]| {
      assert Splice(m[mdl.run], mdl.start, []) == m[mdl.run];
    }
  }

  lemma TotalIs(s: State)
    requires s.blocks != [] ==> s.blocks[0].run in s.memory
    ensures TotalOf(s) == Total(s.blocks, s.memory)
  {
  }

  // A discarded page, with the released mappings as numbered.
  lemma DiscardsPage(s: State, p: PageContext, want: int, n: nat)
    requires Is(s, Exchanged(want), p) && !Shows(p, want)
    requires s.released == Gone(n, s.mdls) && Owned(p) <= s.mdls && forall x :: x in s.mdls ==> x < n
    ensures var left := s.mdls - Owned(p);
            Reaches(s, At(s, if want < 0 then Finished else Mapping(want), EMPTY_PAGE).(mdls := left, released := Gone(n, left)))
  {
    hide Reaches, Shows, Owned, Gone;
    GoneFreed(n, s.mdls, Owned(p));
    Discards(s, p, want);
  }

  // A new mapping of the page with a base, under the next number.
  lemma MapsPage(s: State, want: int, base: int, n: nat, page: PageContext)
    requires Is(s, Mapping(want), EMPTY_PAGE) && base == PageBase(want) && s.released == Gone(n, s.mdls)
    requires forall x :: x in s.mdls ==> x < n
    requires page == NewPage(s.blocks, base, n) && page.mdl.Mdl?
    ensures var more := s.mdls + Owned(page);
            Reaches(s, At(s, Copying(want), page).(mdls := more, released := Gone(n + 1, more)))
  {
    hide Reaches, Find;
    assert PageBase(base) == base;
    GoneNew(n, s.mdls);
    MapsNew(s, want, n);
  }

  lemma CopiesOut(s: State, want: int, p: PageContext)
    requires Is(s, Copying(want), p)
    ensures Reaches(s, At(s, Reading, p))
  {
    hide Reaches;
    Copies(s, want, p, 0, []);
    NothingCopied(s.memory, p.mdl);
  }

  lemma ThenLeaves(s: State, s1: State, pc: Pc)
    requires Reaches(s, s1) && Is(s1, pc, EMPTY_PAGE) && (pc.Mapping? || pc.Finished?)
    ensures Reaches(s, At(s1, Idle, EMPTY_PAGE).(lock := Released(s1.lock, true, false)))
  {
    hide Reaches, Released;
    Leaves(s1, pc, EMPTY_PAGE);
    Then(s, s1, At(s1, Idle, EMPTY_PAGE).(lock := Released(s1.lock, true, false)));
  }

  lemma DropsPage(s: State, upgraded: bool, eof: int, n: nat)
    requires Is(s, Resizing(upgraded, eof), EMPTY_PAGE) && TotalOf(s) - eof >= PAGE
    requires s.released == Gone(n, s.mdls) && Owned(s.latest) <= s.mdls && forall x :: x in s.mdls ==> x < n
    ensures var left := s.mdls - Owned(s.latest);
            Reaches(s, At(s, Freeing(upgraded, eof), EMPTY_PAGE)
                         .(latest := Unmapped(s.latest), mdls := left, released := Gone(n, left)))
  {
    hide Reaches, Owned, Gone, TotalOf;
    GoneFreed(n, s.mdls, Owned(s.latest));
    Drops(s, upgraded, eof);
  }

  lemma GivesUpAfter(s: State, s1: State, upgraded: bool, eof: int)
    requires Reaches(s, s1) && Is(s1, Growing(upgraded, eof), EMPTY_PAGE)
    ensures Reaches(s, At(s1, Idle, EMPTY_PAGE).(lock := Released(s1.lock, upgraded, true)))
  {
    hide Reaches, Released;
    GivesUpGrowing(s1, upgraded, eof);
    Then(s, s1, At(s1, Idle, EMPTY_PAGE).(lock := Released(s1.lock, upgraded, true)));
  }

  lemma EndsAfter(s: State, s1: State, upgraded: bool, eof: int)
    requires Reaches(s, s1) && Is(s1, Growing(upgraded, eof), EMPTY_PAGE) && TotalOf(s1) >= eof
    ensures Reaches(s, Resized(s1, upgraded, eof))
  {
    hide Reaches, TotalOf;
    SetsEnd(s1, Growing(upgraded, eof), upgraded, eof);
    Then(s, s1, Resized(s1, upgraded, eof));
  }
}
