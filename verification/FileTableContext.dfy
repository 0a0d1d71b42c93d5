// The table of objects as the driver updates it in place. Each routine either finds the
// table lock taken, or is a run of the steps of FileTable.

module FileTableContext {
  import opened Basics
  import opened FileTable
  import opened FileTableProof

  // An open from start to end; busyAtEnd tells whether the close of a failed open finds
  // the lock taken.
  function OpenRun(s: State, f: nat, name: Name, attributesOnly: bool, wantsWrite: bool, busyAtEnd: bool): (State, Status)
    requires Inv(s) && f !in s.handles
  {
    var (s1, status) := DoLookup(s, f, name, attributesOnly, wantsWrite);
    if status != Success then (s1, status)
    else
      LookedUp(s, f, name, attributesOnly, wantsWrite);
      var s2 := DoDecide(s1, f);
      if !s2.handles[f].phase.Failing? then (s2, Success)
      else (if busyAtEnd then DoLose(s2, f) else DoClose(s2, f), s2.handles[f].phase.status)
  }

  lemma LookedUp(s: State, f: nat, name: Name, attributesOnly: bool, wantsWrite: bool)
    requires Inv(s) && f !in s.handles && Find(s.capitals, s.entries, name) < |s.entries|
    ensures var s1 := DoLookup(s, f, name, attributesOnly, wantsWrite).0;
            Inv(s1) && f in s1.handles && Live(s1, s1.handles[f].entry) && EntryOf(s1, f) == s1.entries[Find(s.capitals, s.entries, name)]
  {
    var s1 := DoLookup(s, f, name, attributesOnly, wantsWrite).0;
    LookupKeeps(s, f, name, attributesOnly, wantsWrite);
    Changed(s, Find(s.capitals, s.entries, name), s1.entries[Find(s.capitals, s.entries, name)]);
    AtId(s.entries, Find(s.capitals, s.entries, name));
  }

  // The answer to an open of an entry as it was before: metadata can be read once the server
  // has told a size, anything else only by the one file object beside the server's, and
  // nothing is written to what the server calls read-only.
  predicate Answers(e: Entry, attributesOnly: bool, wantsWrite: bool, status: Status) {
    match status
    case NotFound => attributesOnly && e.fileSize == 0
    case Sharing => !attributesOnly && e.refCount != 1
    case Protected => wantsWrite && e.readOnly && (if attributesOnly then e.fileSize > 0 else e.refCount == 1)
    case Success => !(wantsWrite && e.readOnly) && (if attributesOnly then e.fileSize > 0 else e.refCount == 1)
    case _ => false
  }

  predicate Named(s: State, name: Name, i: nat) {
    i < |s.entries| && SameName(s.capitals, name, s.entries[i].name)
  }

  // What an open leaves of the entry: a reference that stays with the file object, or with
  // nobody if it was not let in and the lock was taken at the end; otherwise nothing but
  // that the entry has forgotten a client whose place the file object took.
  predicate Leaves(e: Entry, e': Entry, f: nat, status: Status, busyAtEnd: bool) {
    var first := e.refCount == 1;
    if status == Success then e' == e.(refCount := e.refCount + 1, client := if first then Some(f) else e.client)
    else if busyAtEnd then e' == e.(refCount := e.refCount + 1, lost := e.lost + 1, client := if first then Some(f) else e.client)
    else e' == e.(client := if first || e.client == Some(f) then None else e.client)
  }

  predicate OpenedAs(s: State, s': State, i: nat, f: nat, attributesOnly: bool, wantsWrite: bool, status: Status, busyAtEnd: bool)
    requires i < |s.entries|
  {
    && s'.capitals == s.capitals && |s'.entries| == |s.entries| && s'.entries == s.entries[i := s'.entries[i]]
    && Leaves(s.entries[i], s'.entries[i], f, status, busyAtEnd)
    && s'.handles ==
         if status == Success then
           s.handles[f := Handle(s.entries[i].id, Attached(!attributesOnly, !attributesOnly && wantsWrite), s.entries[i].refCount + 1,
                                 attributesOnly, wantsWrite)]
         else s.handles
  }

  // What an open answers and does, from the table as it was. The one entry with the name
  // decides; a file object that is let in has access to data only if it asked for more than
  // metadata, and can write only if it asked to.
  lemma OpenDecides(s: State, f: nat, name: Name, attributesOnly: bool, wantsWrite: bool, busyAtEnd: bool)
    requires Inv(s) && f !in s.handles
    ensures var result := OpenRun(s, f, name, attributesOnly, wantsWrite, busyAtEnd);
            var s', status := result.0, result.1;
            && ((forall i: nat :: !Named(s, name, i)) ==> status == NotFound && s' == s)
            && (forall i: nat :: Named(s, name, i) ==>
                  && Answers(s.entries[i], attributesOnly, wantsWrite, status)
                  && OpenedAs(s, s', i, f, attributesOnly, wantsWrite, status, busyAtEnd))
  {
    hide CountInv, AccessInv, TableInv, SameName, Answers, OpenedAs, DoClose, DoLose, OpenRun;
    var i := Find(s.capitals, s.entries, name);
    if i < |s.entries| {
      assert Named(s, name, i);
      OpenedIs(s, f, name, attributesOnly, wantsWrite, busyAtEnd);
    } else {
      Unopened(s, f, name, attributesOnly, wantsWrite, busyAtEnd);
    }
    forall j: nat | Named(s, name, j)
      ensures j == i < |s.entries|
    {
      OneNamed(s, name, j);
    }
  }

  lemma Unopened(s: State, f: nat, name: Name, attributesOnly: bool, wantsWrite: bool, busyAtEnd: bool)
    requires Inv(s) && f !in s.handles && Find(s.capitals, s.entries, name) == |s.entries|
    ensures OpenRun(s, f, name, attributesOnly, wantsWrite, busyAtEnd) == (s, NotFound)
  {
    hide Inv;
  }

  lemma OneNamed(s: State, name: Name, i: nat)
    requires TableInv(s) && Named(s, name, i)
    ensures i == Find(s.capitals, s.entries, name)
  {
    var j := Find(s.capitals, s.entries, name);
    assert j <= i;
    if j < i {
      assert SameName(s.capitals, s.entries[j].name, s.entries[i].name);
    }
  }

  lemma OpenedIs(s: State, f: nat, name: Name, attributesOnly: bool, wantsWrite: bool, busyAtEnd: bool)
    requires Inv(s) && f !in s.handles && Find(s.capitals, s.entries, name) < |s.entries|
    ensures var result, i := OpenRun(s, f, name, attributesOnly, wantsWrite, busyAtEnd), Find(s.capitals, s.entries, name);
            && Answers(s.entries[i], attributesOnly, wantsWrite, result.1)
            && OpenedAs(s, result.0, i, f, attributesOnly, wantsWrite, result.1, busyAtEnd)
  {
    hide CountInv, AccessInv, TableInv, Find, ById, SameName, DoClose, DoLose;
    var i := Find(s.capitals, s.entries, name);
    var s1 := DoLookup(s, f, name, attributesOnly, wantsWrite).0;
    LookedUp(s, f, name, attributesOnly, wantsWrite);
    LookedAt(s1, i);
    Positive(s, i);
    ServerStays(s, i, f);
    var s2 := DoDecide(s1, f);
    assert s2.entries == s1.entries && ById(s2.entries, s2.handles[f].entry) == i;
    if s2.handles[f].phase.Failing? {
      GivenUp(s2, f, i);
      assert s2.handles - {f} == s.handles;
    }
  }

  lemma LookedAt(s: State, i: nat)
    requires TableInv(s) && i < |s.entries|
    ensures ById(s.entries, s.entries[i].id) == i
  {
    AtId(s.entries, i);
  }

  lemma GivenUp(s: State, f: nat, i: nat)
    requires f in s.handles && i < |s.entries| && ById(s.entries, s.handles[f].entry) == i && s.entries[i].refCount > 1
    ensures DoLose(s, f) == s.(entries := s.entries[i := s.entries[i].(lost := s.entries[i].lost + 1)], handles := s.handles - {f})
    ensures DoClose(s, f) == s.(entries := s.entries[i := Unlinked(s.entries[i], f)], handles := s.handles - {f})
  {
    hide ById;
  }

  lemma Positive(s: State, i: nat)
    requires CountInv(s) && i < |s.entries|
    ensures s.entries[i].refCount > 0
  {
  }

  lemma ServerStays(s: State, i: nat, f: nat)
    requires CountInv(s) && i < |s.entries| && f !in s.handles
    ensures s.entries[i].server != Some(f)
  {
  }

  // What a close leaves: one reference fewer and no trace of the file object, or with the
  // last reference no entry.
  predicate ClosedAs(s: State, s': State, f: nat)
    requires f in s.handles
  {
    && s'.handles == s.handles - {f}
    && forall i :: 0 <= i < |s.entries| && s.entries[i].id == s.handles[f].entry ==>
         var e := s.entries[i];
         if e.refCount == 1 then s'.entries == s.entries[..i] + s.entries[i + 1..]
         else s'.entries == s.entries[i := e.(refCount := e.refCount - 1,
                                              server := if e.server == Some(f) then None else e.server,
                                              client := if e.server != Some(f) && e.client == Some(f) then None else e.client)]
  }

  lemma CloseDoes(s: State, f: nat)
    requires Inv(s) && f in s.handles && Live(s, s.handles[f].entry)
    ensures ClosedAs(s, DoClose(s, f), f)
  {
    hide AccessInv, ServersHold, ById;
    forall i | 0 <= i < |s.entries| && s.entries[i].id == s.handles[f].entry ensures i == ById(s.entries, s.handles[f].entry) {
      LookedAt(s, i);
    }
    Positive(s, ById(s.entries, s.handles[f].entry));
  }

  class ObjectTable {
    const capitals: Capitals   // the system's
    var entries: seq<Entry>
    var handles: map<nat, Handle>

    function View(): State
      reads this
    {
      State(capitals, entries, handles)
    }

    constructor (capitals: Capitals)
      ensures View() == Empty(capitals) && Inv(View())
    {
      this.capitals := capitals;
      entries, handles := [], map[];
    }

    method FindEntry(name: Name) returns (i: nat)
      ensures i == Find(capitals, entries, name)
    {
      i := 0;
      while i < |entries| && !SameName(capitals, name, entries[i].name)
        invariant i <= |entries| && forall j :: 0 <= j < i ==> !SameName(capitals, name, entries[j].name)
      {
        i := i + 1;
      }
      var k := Find(capitals, entries, name);
      assert k >= i;
    }

    method CreateFileTableEntry(f: nat, name: Name, id: nat, pool: bool, busy: bool) returns (status: Status)
      requires Inv(View()) && f !in handles && !Live(View(), id)
      modifies this
      ensures Inv(View())
      ensures status == if busy then Busy
                        else if exists i: nat :: Named(old(View()), name, i) then Collision
                        else if !pool then NoResources
                        else Success
      ensures status != Success ==> View() == old(View())
      ensures status == Success ==>
                && entries == [Entry(id, name, 1, Some(f), None, 0, false, 0)] + old(entries)
                && handles == old(handles)[f := Handle(id, Attached(true, true), 1, false, true)]
      ensures !busy ==> (View(), status) == DoCreate(old(View()), f, name, id, pool)
    {
      hide Inv, SameName;
      if busy {
        return Busy;
      }
      CreateKeeps(View(), f, name, id, pool);
      var i := FindEntry(name);
      if i < |entries| {
        assert Named(old(View()), name, i);
        return Collision;
      }
      if !pool {
        return NoResources;
      }
      entries := [Entry(id, name, 1, Some(f), None, 0, false, 0)] + entries;
      handles := handles[f := Handle(id, Attached(true, true), 1, false, true)];
      return Success;
    }

    method CloseFileTableEntry(f: nat, busy: bool) returns (status: Status)
      requires Inv(View()) && f in handles && Live(View(), handles[f].entry)
      modifies this
      ensures Inv(View())
      ensures busy ==> status == InUse && View() == old(View())
      ensures !busy ==> status == Success && View() == DoClose(old(View()), f)
      ensures !busy ==> ClosedAs(old(View()), View(), f)
    {
      hide Inv, ClosedAs;
      if busy {
        return InUse;
      }
      CloseKeeps(View(), f);
      CloseDoes(View(), f);
      var i := ById(entries, handles[f].entry);
      var e := entries[i];
      if e.server == Some(f) {
        e := e.(server := None);
      } else if e.client == Some(f) {
        e := e.(client := None);
      }
      e := e.(refCount := e.refCount - 1);
      if e.refCount > 0 {
        entries := entries[i := e];
      } else {
        entries := entries[..i] + entries[i + 1..];
      }
      handles := handles - {f};
      return Success;
    }

    method OpenFileTableEntry(f: nat, name: Name, attributesOnly: bool, wantsWrite: bool, busy: bool, busyAtEnd: bool)
      returns (status: Status)
      requires Inv(View()) && f !in handles
      modifies this
      ensures Inv(View())
      ensures busy ==> status == Busy && View() == old(View())
      ensures !busy && (forall i: nat :: !Named(old(View()), name, i)) ==> status == NotFound && View() == old(View())
      ensures !busy ==>
                forall i: nat :: Named(old(View()), name, i) ==>
                  && Answers(old(entries)[i], attributesOnly, wantsWrite, status)
                  && OpenedAs(old(View()), View(), i, f, attributesOnly, wantsWrite, status, busyAtEnd)
      ensures !busy ==> (View(), status) == OpenRun(old(View()), f, name, attributesOnly, wantsWrite, busyAtEnd)
    {
      hide Inv, DoClose, DoLose, Answers, OpenedAs, SameName;
      if busy {
        return Busy;
      }
      OpenDecides(View(), f, name, attributesOnly, wantsWrite, busyAtEnd);
      var i := FindEntry(name);
      if i == |entries| {
        return NotFound;
      }
      LookedUp(View(), f, name, attributesOnly, wantsWrite);
      var ref := entries[i].refCount + 1;
      var e := entries[i].(refCount := ref);
      if ref == 2 {
        e := e.(client := Some(f));
      }
      entries := entries[i := e];
      handles := handles[f := Handle(e.id, Looked, ref, attributesOnly, wantsWrite)];
      DecideKeeps(View(), f);
      status := Success;
      if attributesOnly && e.fileSize == 0 {
        status := NotFound;
      } else if !attributesOnly && ref != 2 {
        status := Sharing;
      } else if wantsWrite && e.readOnly {
        status := Protected;
      }
      if status != Success {
        handles := handles[f := handles[f].(phase := Failing(status))];
        status := GiveUpOpen(f, status, busyAtEnd);
      } else {
        handles := handles[f := handles[f].(phase := Attached(!attributesOnly, !attributesOnly && wantsWrite))];
      }
    }

    // The close of a failed open, whose own result is not looked at.
    method GiveUpOpen(f: nat, why: Status, busy: bool) returns (status: Status)
      requires Inv(View()) && f in handles && Live(View(), handles[f].entry) && handles[f].phase.Failing?
      modifies this
      ensures Inv(View()) && status == why
      ensures View() == if busy then DoLose(old(View()), f) else DoClose(old(View()), f)
    {
      hide Inv;
      var closed := CloseFileTableEntry(f, busy);
      if closed != Success {
        LoseKeeps(View(), f);
        var i := ById(entries, handles[f].entry);
        entries := entries[i := entries[i].(lost := entries[i].lost + 1)];
        handles := handles - {f};
      }
      return why;
    }
  }
}
