// What every run of opens, creates and closes keeps in the driver's table of objects.

module FileTableProof {
  import opened Basics
  import opened FileTable

  // The file objects that hold a reference to an entry.
  ghost function Holders(s: State, id: nat): set<nat> {
    set f | f in s.handles && s.handles[f].entry == id
  }

  ghost predicate DistinctIds(entries: seq<Entry>) {
    forall i, j :: 0 <= i < j < |entries| ==> entries[i].id != entries[j].id
  }

  ghost predicate DistinctNames(capitals: Capitals, entries: seq<Entry>) {
    forall i, j :: 0 <= i < j < |entries| ==> !SameName(capitals, entries[i].name, entries[j].name)
  }

  // No file object refers to an entry that has been freed.
  ghost predicate NoneDangling(s: State) {
    forall f :: f in s.handles ==> Live(s, s.handles[f].entry)
  }

  // The reference count is the number of holders and of references that were lost.
  ghost predicate Counted(s: State) {
    forall i :: 0 <= i < |s.entries| ==>
      s.entries[i].refCount == |Holders(s, s.entries[i].id)| + s.entries[i].lost && s.entries[i].refCount > 0
  }

  ghost predicate ServersHold(s: State) {
    forall i :: 0 <= i < |s.entries| && s.entries[i].server.Some? ==> HeldByServer(s, s.entries[i])
  }

  ghost predicate HeldByServer(s: State, e: Entry)
    requires e.server.Some?
  {
    e.server.value in Holders(s, e.id) && s.handles[e.server.value].phase.Attached?
  }

  // A client that may get, or has, access to data.
  predicate First(s: State, e: Entry, f: nat) {
    f in s.handles && s.handles[f].entry == e.id && Some(f) != e.server && s.handles[f].ref == 2
  }

  ghost predicate OneFirst(s: State) {
    forall i, f, g :: 0 <= i < |s.entries| && s.entries[i].server.Some? && First(s, s.entries[i], f) && First(s, s.entries[i], g)
      ==> f == g
  }

  ghost predicate AccessNumbered(s: State) {
    forall f :: f in s.handles && s.handles[f].phase.Attached? && (s.handles[f].phase.read || s.handles[f].phase.write) ==>
      s.handles[f].ref == 1 || s.handles[f].ref == 2
  }

  // Number one is drawn only by the server.
  ghost predicate ServerNumbered(s: State) {
    forall i, f :: 0 <= i < |s.entries| && s.entries[i].server.Some? && f in Holders(s, s.entries[i].id) && s.handles[f].ref == 1
      ==> s.entries[i].server == Some(f)
  }

  // The three groups of the invariant.
  ghost predicate TableInv(s: State) {
    DistinctIds(s.entries) && DistinctNames(s.capitals, s.entries) && NoneDangling(s)
  }

  ghost predicate CountInv(s: State) {
    Counted(s) && ServersHold(s)
  }

  ghost predicate AccessInv(s: State) {
    OneFirst(s) && AccessNumbered(s) && ServerNumbered(s)
  }

  ghost predicate Inv(s: State) {
    TableInv(s) && CountInv(s) && AccessInv(s)
  }

  lemma {:induction false} LiveIff(entries: seq<Entry>, id: nat)
    ensures ById(entries, id) < |entries| <==> exists i :: 0 <= i < |entries| && entries[i].id == id
  {
    var k := ById(entries, id);
    if k < |entries| {
      assert entries[k].id == id;
    }
  }

  lemma AtId(entries: seq<Entry>, i: nat)
    requires DistinctIds(entries) && i < |entries|
    ensures ById(entries, entries[i].id) == i
  {
    var k := ById(entries, entries[i].id);
    assert k <= i;
  }

  // A changed entry keeps its place, id and name.
  lemma Changed(s: State, i: nat, e: Entry)
    requires DistinctIds(s.entries) && DistinctNames(s.capitals, s.entries)
    requires i < |s.entries| && e.id == s.entries[i].id && e.name == s.entries[i].name
    ensures DistinctIds(s.entries[i := e]) && DistinctNames(s.capitals, s.entries[i := e])
    ensures forall id :: ById(s.entries[i := e], id) == ById(s.entries, id)
  {
    var entries := s.entries[i := e];
    forall id ensures ById(entries, id) == ById(s.entries, id) {
      SameById(s.entries, entries, id);
    }
  }

  lemma {:induction false} SameById(p: seq<Entry>, q: seq<Entry>, id: nat)
    requires |p| == |q| && forall i :: 0 <= i < |p| ==> p[i].id == q[i].id
    ensures ById(p, id) == ById(q, id)
  {
    if p != [] {
      SameById(p[1..], q[1..], id);
    }
  }

  lemma HoldersGrow(s: State, s': State, f: nat, h: Handle, id: nat)
    requires f !in s.handles && s'.handles == s.handles[f := h]
    ensures Holders(s', id) == if h.entry == id then Holders(s, id) + {f} else Holders(s, id)
    ensures |Holders(s', id)| == |Holders(s, id)| + if h.entry == id then 1 else 0
  {
    HoldersIn(s, s', f, h, id);
    var had := Holders(s, id);
    hide Holders;
    assert f !in had;
    if h.entry == id {
      assert Holders(s', id) == had + {f};
    } else {
      assert Holders(s', id) == had;
    }
  }

  lemma HoldersIn(s: State, s': State, f: nat, h: Handle, id: nat)
    requires f !in s.handles && s'.handles == s.handles[f := h]
    ensures f !in Holders(s, id)
    ensures forall x :: x in Holders(s', id) <==> x in Holders(s, id) || (x == f && h.entry == id)
  {
  }

  lemma HoldersShrink(s: State, s': State, f: nat, id: nat)
    requires f in s.handles && s'.handles == s.handles - {f}
    ensures Holders(s', id) == Holders(s, id) - {f}
    ensures |Holders(s', id)| == |Holders(s, id)| - if s.handles[f].entry == id then 1 else 0
  {
    assert Holders(s', id) == Holders(s, id) - {f};
    if s.handles[f].entry == id {
      assert f in Holders(s, id);
    } else {
      assert Holders(s, id) - {f} == Holders(s, id);
    }
  }

  lemma HoldersSame(s: State, s': State, id: nat)
    requires s'.handles.Keys == s.handles.Keys && forall f :: f in s.handles ==> s'.handles[f].entry == s.handles[f].entry
    ensures Holders(s', id) == Holders(s, id)
  {
  }

  // Only the server holds an entry with a count of one and a server.
  lemma OnlyServer(s: State, i: nat, f: nat)
    requires Counted(s) && ServersHold(s) && i < |s.entries| && s.entries[i].server.Some? && s.entries[i].refCount == 1
    requires f in Holders(s, s.entries[i].id) && s.entries[i].lost >= 0
    ensures Some(f) == s.entries[i].server
  {
    var holders, v := Holders(s, s.entries[i].id), s.entries[i].server.value;
    assert |holders - {v}| == |holders| - 1 == 0;
    assert f in holders - {v} || f == v;
  }

  lemma Pushed(entries: seq<Entry>, e: Entry, id: nat)
    ensures ById(entries, id) < |entries| || id == e.id ==> ById([e] + entries, id) < |[e] + entries|
  {
    assert ([e] + entries)[1..] == entries;
  }

  lemma CreateHolders(s: State, f: nat, name: Name, id: nat, x: nat)
    requires NoneDangling(s) && f !in s.handles && !Live(s, id) && Find(s.capitals, s.entries, name) == |s.entries|
    ensures var s' := DoCreate(s, f, name, id, true).0;
            && Holders(s', x) == (if x == id then {f} else Holders(s, x))
            && |Holders(s', x)| == if x == id then 1 else |Holders(s, x)|
  {
    var s' := DoCreate(s, f, name, id, true).0;
    assert Holders(s, id) == {};
    HoldersGrow(s, s', f, s'.handles[f], x);
  }

  lemma CreateTable(s: State, f: nat, name: Name, id: nat)
    requires TableInv(s) && f !in s.handles && !Live(s, id) && Find(s.capitals, s.entries, name) == |s.entries|
    ensures TableInv(DoCreate(s, f, name, id, true).0)
  {
    var s' := DoCreate(s, f, name, id, true).0;
    LiveIff(s.entries, id);
    forall x | x in s'.handles ensures Live(s', s'.handles[x].entry) {
      Pushed(s.entries, s'.entries[0], s'.handles[x].entry);
    }
  }

  lemma CreateCounts(s: State, f: nat, name: Name, id: nat)
    requires TableInv(s) && CountInv(s) && f !in s.handles && !Live(s, id) && Find(s.capitals, s.entries, name) == |s.entries|
    ensures CountInv(DoCreate(s, f, name, id, true).0)
  {
    hide Holders, DistinctIds, DistinctNames;
    var s' := DoCreate(s, f, name, id, true).0;
    forall i | 0 <= i < |s'.entries|
      ensures s'.entries[i].refCount == |Holders(s', s'.entries[i].id)| + s'.entries[i].lost && s'.entries[i].refCount > 0
      ensures s'.entries[i].server.Some? ==> HeldByServer(s', s'.entries[i])
    {
      CreateHolders(s, f, name, id, s'.entries[i].id);
      if i > 0 {
        assert s'.entries[i] == s.entries[i - 1];
      }
    }
  }

  lemma NewId(s: State, id: nat)
    requires NoneDangling(s) && !Live(s, id)
    ensures forall i :: 0 <= i < |s.entries| ==> s.entries[i].id != id
    ensures forall x :: x in s.handles ==> s.handles[x].entry != id
  {
    LiveIff(s.entries, id);
  }

  lemma CreateAccess(s: State, f: nat, name: Name, id: nat)
    requires TableInv(s) && AccessInv(s) && f !in s.handles && !Live(s, id) && Find(s.capitals, s.entries, name) == |s.entries|
    ensures AccessInv(DoCreate(s, f, name, id, true).0)
  {
    hide DistinctIds, DistinctNames, ById, Find;
    NewId(s, id);
    var s' := DoCreate(s, f, name, id, true).0;
    forall i, x, y | 0 <= i < |s'.entries| && s'.entries[i].server.Some? && First(s', s'.entries[i], x) && First(s', s'.entries[i], y)
      ensures x == y
    {
      if i > 0 {
        assert s'.entries[i] == s.entries[i - 1];
        assert First(s, s.entries[i - 1], x) && First(s, s.entries[i - 1], y);
      }
    }
    forall i, x | 0 <= i < |s'.entries| && s'.entries[i].server.Some? && x in Holders(s', s'.entries[i].id) && s'.handles[x].ref == 1
      ensures s'.entries[i].server == Some(x)
    {
      if i > 0 {
        assert s'.entries[i] == s.entries[i - 1] && x in Holders(s, s.entries[i - 1].id);
      }
    }
  }

  lemma CreateKeeps(s: State, f: nat, name: Name, id: nat, pool: bool)
    requires Inv(s) && Enabled(s, Create(f, name, id, pool))
    ensures Inv(DoCreate(s, f, name, id, pool).0)
  {
    hide TableInv, CountInv, AccessInv;
    if pool && Find(s.capitals, s.entries, name) == |s.entries| {
      CreateTable(s, f, name, id);
      CreateCounts(s, f, name, id);
      CreateAccess(s, f, name, id);
    }
  }

  lemma LookupTable(s: State, f: nat, name: Name, attributesOnly: bool, wantsWrite: bool)
    requires TableInv(s) && f !in s.handles && Find(s.capitals, s.entries, name) < |s.entries|
    ensures TableInv(DoLookup(s, f, name, attributesOnly, wantsWrite).0)
  {
    var s', i := DoLookup(s, f, name, attributesOnly, wantsWrite).0, Find(s.capitals, s.entries, name);
    Changed(s, i, s'.entries[i]);
    AtId(s.entries, i);
  }

  lemma LookupCounts(s: State, f: nat, name: Name, attributesOnly: bool, wantsWrite: bool)
    requires TableInv(s) && CountInv(s) && f !in s.handles && Find(s.capitals, s.entries, name) < |s.entries|
    ensures CountInv(DoLookup(s, f, name, attributesOnly, wantsWrite).0)
  {
    hide Holders, DistinctNames;
    var s', i := DoLookup(s, f, name, attributesOnly, wantsWrite).0, Find(s.capitals, s.entries, name);
    forall j | 0 <= j < |s'.entries|
      ensures s'.entries[j].refCount == |Holders(s', s'.entries[j].id)| + s'.entries[j].lost && s'.entries[j].refCount > 0
      ensures s'.entries[j].server.Some? ==> HeldByServer(s', s'.entries[j])
    {
      HoldersGrow(s, s', f, s'.handles[f], s'.entries[j].id);
      if s.entries[j].server.Some? {
        ServerIn(s, j);
      }
      assert s'.entries[j].id == s.entries[j].id && s'.entries[j].server == s.entries[j].server;
    }
  }

  lemma LookupAccess(s: State, f: nat, name: Name, attributesOnly: bool, wantsWrite: bool)
    requires TableInv(s) && CountInv(s) && AccessInv(s) && f !in s.handles && Find(s.capitals, s.entries, name) < |s.entries|
    ensures AccessInv(DoLookup(s, f, name, attributesOnly, wantsWrite).0)
  {
    hide DistinctNames, NoneDangling, ById, Find;
    var s', i := DoLookup(s, f, name, attributesOnly, wantsWrite).0, Find(s.capitals, s.entries, name);
    var ref := s'.handles[f].ref;
    assert ref == s.entries[i].refCount + 1 >= 2;
    forall j, x, y | 0 <= j < |s'.entries| && s'.entries[j].server.Some? && First(s', s'.entries[j], x) && First(s', s'.entries[j], y)
      ensures x == y
    {
      FirstBefore(s, s', i, j, f, x);
      FirstBefore(s, s', i, j, f, y);
    }
    forall j, x | 0 <= j < |s'.entries| && s'.entries[j].server.Some? && x in Holders(s', s'.entries[j].id) && s'.handles[x].ref == 1
      ensures s'.entries[j].server == Some(x)
    {
      assert x in Holders(s, s.entries[j].id);
    }
  }

  // Who is a first client after a lookup was one before, or is the one that looked up and
  // then the only one.
  lemma FirstBefore(s: State, s': State, i: nat, j: nat, f: nat, x: nat)
    requires DistinctIds(s.entries) && CountInv(s) && f !in s.handles && i < |s.entries| && j < |s.entries|
    requires s.entries[j].server.Some?
    requires f in s'.handles && s'.handles == s.handles[f := s'.handles[f]] && s'.handles[f].entry == s.entries[i].id
    requires s'.handles[f].ref == s.entries[i].refCount + 1
    requires First(s', s.entries[j].(refCount := 0, client := None), x)
    ensures if x == f then i == j && s.entries[i].refCount == 1 else First(s, s.entries[j], x)
    ensures s.entries[j].refCount == 1 ==> x == f
  {
    if x != f {
      assert x in Holders(s, s.entries[j].id);
      if s.entries[j].refCount == 1 {
        OnlyServer(s, j, x);
      }
    }
  }

  lemma LookupKeeps(s: State, f: nat, name: Name, attributesOnly: bool, wantsWrite: bool)
    requires Inv(s) && Enabled(s, Lookup(f, name, attributesOnly, wantsWrite))
    ensures Inv(DoLookup(s, f, name, attributesOnly, wantsWrite).0)
  {
    hide TableInv, CountInv, AccessInv;
    if Find(s.capitals, s.entries, name) < |s.entries| {
      LookupTable(s, f, name, attributesOnly, wantsWrite);
      LookupCounts(s, f, name, attributesOnly, wantsWrite);
      LookupAccess(s, f, name, attributesOnly, wantsWrite);
    }
  }

  // A step of an attached or opening file object on its own entry, which keeps the
  // entry's references.
  lemma SameHolders(s: State, s': State)
    requires s'.handles.Keys == s.handles.Keys && forall f :: f in s.handles ==> s'.handles[f].entry == s.handles[f].entry
    ensures forall id: nat :: Holders(s', id) == Holders(s, id)
  {
    forall id: nat ensures Holders(s', id) == Holders(s, id) {
      HoldersSame(s, s', id);
    }
  }

  lemma DecideKeeps(s: State, f: nat)
    requires Inv(s) && Enabled(s, Decide(f))
    ensures Inv(DoDecide(s, f))
  {
    var s' := DoDecide(s, f);
    SameHolders(s, s');
    DecideCounts(s, s', f);
    DecideAccess(s, s', f);
    hide CountInv, AccessInv;
  }

  lemma DecideCounts(s: State, s': State, f: nat)
    requires CountInv(s) && f in s.handles && s.handles[f].phase.Looked? && s'.entries == s.entries && f in s'.handles
    requires s'.handles == s.handles[f := s.handles[f].(phase := s'.handles[f].phase)]
    requires forall id: nat :: Holders(s', id) == Holders(s, id)
    ensures CountInv(s')
  {
    hide Holders;
    forall i | 0 <= i < |s.entries| && s.entries[i].server.Some? ensures HeldByServer(s', s'.entries[i]) {
      assert HeldByServer(s, s.entries[i]);
    }
  }

  lemma DecideAccess(s: State, s': State, f: nat)
    requires AccessInv(s) && f in s.handles && s'.entries == s.entries && f in s'.handles
    requires s'.handles == s.handles[f := s.handles[f].(phase := s'.handles[f].phase)]
    requires s'.handles[f].phase.Attached? && s'.handles[f].phase.read ==> s.handles[f].ref == 2
    requires s'.handles[f].phase.Attached? && s'.handles[f].phase.write ==> s.handles[f].ref == 2
    requires forall id: nat :: Holders(s', id) == Holders(s, id)
    ensures AccessInv(s')
  {
    hide Holders;
    forall i, x | 0 <= i < |s.entries| && First(s', s.entries[i], x) ensures First(s, s.entries[i], x) {
    }
  }

  // An entry whose server, size or mode changes.
  lemma EntryKeeps(s: State, i: nat, e: Entry)
    requires Inv(s) && i < |s.entries|
    requires e == s.entries[i].(fileSize := e.fileSize, readOnly := e.readOnly, server := e.server)
    requires e.server == s.entries[i].server || e.server == None
    ensures Inv(s.(entries := s.entries[i := e]))
  {
    hide CountInv, AccessInv;
    var s' := s.(entries := s.entries[i := e]);
    Changed(s, i, e);
    SameHolders(s, s');
    EntryCounts(s, s', i);
    EntryAccess(s, s', i);
  }

  lemma EntryCounts(s: State, s': State, i: nat)
    requires CountInv(s) && i < |s.entries| && s'.handles == s.handles && |s'.entries| == |s.entries|
    requires forall j :: 0 <= j < |s.entries| && j != i ==> s'.entries[j] == s.entries[j]
    requires s'.entries[i].id == s.entries[i].id && s'.entries[i].refCount == s.entries[i].refCount && s'.entries[i].lost == s.entries[i].lost
    requires s'.entries[i].server == s.entries[i].server || s'.entries[i].server == None
    requires forall id: nat :: Holders(s', id) == Holders(s, id)
    ensures CountInv(s')
  {
    hide Holders;
    forall j | 0 <= j < |s'.entries| && s'.entries[j].server.Some? ensures HeldByServer(s', s'.entries[j]) {
      assert HeldByServer(s, s.entries[j]);
    }
  }

  lemma EntryAccess(s: State, s': State, i: nat)
    requires AccessInv(s) && i < |s.entries| && s'.handles == s.handles && |s'.entries| == |s.entries|
    requires forall j :: 0 <= j < |s.entries| && j != i ==> s'.entries[j] == s.entries[j]
    requires s'.entries[i].id == s.entries[i].id
    requires s'.entries[i].server == s.entries[i].server || s'.entries[i].server == None
    requires forall id: nat :: Holders(s', id) == Holders(s, id)
    ensures AccessInv(s')
  {
    hide Holders;
    forall j, x | 0 <= j < |s'.entries| && s'.entries[j].server.Some? && First(s', s'.entries[j], x)
      ensures First(s, s.entries[j], x)
    {
    }
  }

  lemma ServerIn(s: State, i: nat)
    requires CountInv(s) && i < |s.entries| && s.entries[i].server.Some?
    ensures s.entries[i].server.value in s.handles && HeldByServer(s, s.entries[i])
  {
  }

  // One holder fewer.
  lemma LeaveHolders(s: State, s': State, f: nat)
    requires f in s.handles && s'.handles == s.handles - {f}
    ensures forall id: nat :: Holders(s', id) == Holders(s, id) - {f}
    ensures forall id: nat :: |Holders(s', id)| == |Holders(s, id)| - if s.handles[f].entry == id then 1 else 0
  {
    forall id: nat ensures Holders(s', id) == Holders(s, id) - {f}
      ensures |Holders(s', id)| == |Holders(s, id)| - if s.handles[f].entry == id then 1 else 0
    {
      HoldersShrink(s, s', f, id);
    }
  }

  // The entry that a file object leaves stays in the table.
  lemma LeaveTable(s: State, f: nat, i: nat, e: Entry)
    requires TableInv(s) && f in s.handles && i < |s.entries| && e.id == s.entries[i].id && e.name == s.entries[i].name
    ensures TableInv(s.(entries := s.entries[i := e], handles := s.handles - {f}))
  {
    Changed(s, i, e);
  }

  lemma LeaveCounts(s: State, f: nat, i: nat, e: Entry)
    requires TableInv(s) && CountInv(s) && f in s.handles && i < |s.entries| && s.handles[f].entry == s.entries[i].id == e.id
    requires e.refCount == s.entries[i].refCount + e.lost - s.entries[i].lost - 1 && e.refCount > 0
    requires e.server == None || (e.server == s.entries[i].server && e.server != Some(f))
    ensures CountInv(s.(entries := s.entries[i := e], handles := s.handles - {f}))
  {
    hide Holders, DistinctNames, NoneDangling;
    var s' := s.(entries := s.entries[i := e], handles := s.handles - {f});
    LeaveHolders(s, s', f);
    forall j | 0 <= j < |s'.entries|
      ensures s'.entries[j].refCount == |Holders(s', s'.entries[j].id)| + s'.entries[j].lost && s'.entries[j].refCount > 0
      ensures s'.entries[j].server.Some? ==> HeldByServer(s', s'.entries[j])
    {
      if j != i {
        OtherServer(s, i, j, f);
        assert s'.entries[j] == s.entries[j];
      }
      if s'.entries[j].server.Some? {
        ServerIn(s, j);
      }
    }
  }

  lemma OtherServer(s: State, i: nat, j: nat, f: nat)
    requires DistinctIds(s.entries) && ServersHold(s) && i < |s.entries| && j < |s.entries| && i != j
    requires f in s.handles && s.handles[f].entry == s.entries[i].id
    ensures s.entries[j].id != s.entries[i].id && s.entries[j].server != Some(f)
  {
  }

  lemma LeaveAccess(s: State, f: nat, i: nat, e: Entry)
    requires AccessInv(s) && f in s.handles && i < |s.entries| && e.id == s.entries[i].id
    requires e.server == None || e.server == s.entries[i].server
    ensures AccessInv(s.(entries := s.entries[i := e], handles := s.handles - {f}))
  {
    var s' := s.(entries := s.entries[i := e], handles := s.handles - {f});
    forall j, x | 0 <= j < |s'.entries| && s'.entries[j].server.Some? && First(s', s'.entries[j], x)
      ensures First(s, s.entries[j], x)
    {
    }
    forall j, x | 0 <= j < |s'.entries| && s'.entries[j].server.Some? && x in Holders(s', s'.entries[j].id) && s'.handles[x].ref == 1
      ensures s'.entries[j].server == Some(x)
    {
      assert x in Holders(s, s.entries[j].id);
    }
  }

  // The last reference: nobody else holds the entry that is freed.
  lemma LastHolder(s: State, f: nat, i: nat)
    requires CountInv(s) && i < |s.entries| && s.entries[i].refCount == 1
    requires f in s.handles && s.handles[f].entry == s.entries[i].id
    ensures Holders(s, s.entries[i].id) == {f} && s.entries[i].lost == 0
  {
    var holders := Holders(s, s.entries[i].id);
    assert f in holders;
    assert |holders - {f}| == |holders| - 1;
  }

  lemma FreeTable(s: State, f: nat, i: nat)
    requires TableInv(s) && CountInv(s) && i < |s.entries| && s.entries[i].refCount == 1
    requires f in s.handles && s.handles[f].entry == s.entries[i].id
    ensures TableInv(s.(entries := s.entries[..i] + s.entries[i + 1..], handles := s.handles - {f}))
  {
    LastHolder(s, f, i);
    hide CountInv, Holders;
    var s' := s.(entries := s.entries[..i] + s.entries[i + 1..], handles := s.handles - {f});
    forall g | g in s'.handles ensures Live(s', s'.handles[g].entry) {
      StillLive(s, i, s.handles[g].entry);
      NotHeld(s, s.entries[i].id, g);
    }
    OthersDistinct(s, i);
  }

  lemma OthersDistinct(s: State, i: nat)
    requires DistinctIds(s.entries) && DistinctNames(s.capitals, s.entries) && i < |s.entries|
    ensures DistinctIds(s.entries[..i] + s.entries[i + 1..]) && DistinctNames(s.capitals, s.entries[..i] + s.entries[i + 1..])
  {
  }

  lemma NotHeld(s: State, id: nat, g: nat)
    requires g in s.handles && g !in Holders(s, id)
    ensures s.handles[g].entry != id
  {
  }

  lemma StillLive(s: State, i: nat, id: nat)
    requires i < |s.entries| && Live(s, id)
    ensures s.entries[i].id != id ==> ById(s.entries[..i] + s.entries[i + 1..], id) < |s.entries| - 1
  {
    var k, entries := ById(s.entries, id), s.entries[..i] + s.entries[i + 1..];
    if s.entries[i].id != id {
      assert entries[if k < i then k else k - 1].id == id;
      LiveIff(entries, id);
    }
  }

  lemma FreeCounts(s: State, f: nat, i: nat)
    requires TableInv(s) && CountInv(s) && i < |s.entries| && s.entries[i].refCount == 1
    requires f in s.handles && s.handles[f].entry == s.entries[i].id
    ensures CountInv(s.(entries := s.entries[..i] + s.entries[i + 1..], handles := s.handles - {f}))
  {
    hide Holders, HeldByServer, TableInv, CountInv;
    var s' := s.(entries := s.entries[..i] + s.entries[i + 1..], handles := s.handles - {f});
    forall j | 0 <= j < |s'.entries|
      ensures s'.entries[j].refCount == |Holders(s', s'.entries[j].id)| + s'.entries[j].lost && s'.entries[j].refCount > 0
      ensures s'.entries[j].server.Some? ==> HeldByServer(s', s'.entries[j])
    {
      OtherCounts(s, s', f, i, if j < i then j else j + 1);
    }
    AllCounts(s');
  }

  lemma AllCounts(s: State)
    requires forall j :: 0 <= j < |s.entries| ==>
               s.entries[j].refCount == |Holders(s, s.entries[j].id)| + s.entries[j].lost && s.entries[j].refCount > 0
    requires forall j :: 0 <= j < |s.entries| && s.entries[j].server.Some? ==> HeldByServer(s, s.entries[j])
    ensures CountInv(s)
  {
  }

  // An entry keeps its count and its server when a file object leaves another one.
  lemma OtherCounts(s: State, s': State, f: nat, i: nat, k: nat)
    requires TableInv(s) && CountInv(s) && i < |s.entries| && k < |s.entries| && k != i
    requires f in s.handles && s.handles[f].entry == s.entries[i].id && s'.handles == s.handles - {f}
    ensures s.entries[k].refCount == |Holders(s', s.entries[k].id)| + s.entries[k].lost && s.entries[k].refCount > 0
    ensures s.entries[k].server.Some? ==> HeldByServer(s', s.entries[k])
  {
    hide DistinctNames, NoneDangling;
    OtherServer(s, i, k, f);
    HoldersShrink(s, s', f, s.entries[k].id);
  }

  lemma FreeAccess(s: State, f: nat, i: nat)
    requires AccessInv(s) && i < |s.entries| && f in s.handles
    ensures AccessInv(s.(entries := s.entries[..i] + s.entries[i + 1..], handles := s.handles - {f}))
  {
    var s' := s.(entries := s.entries[..i] + s.entries[i + 1..], handles := s.handles - {f});
    forall j, x | 0 <= j < |s'.entries| && s'.entries[j].server.Some? && First(s', s'.entries[j], x)
      ensures First(s, s.entries[if j < i then j else j + 1], x)
    {
    }
    forall j, x | 0 <= j < |s'.entries| && s'.entries[j].server.Some? && x in Holders(s', s'.entries[j].id) && s'.handles[x].ref == 1
      ensures s'.entries[j].server == Some(x)
    {
      assert x in Holders(s, s.entries[if j < i then j else j + 1].id);
    }
  }

  lemma CloseKeeps(s: State, f: nat)
    requires Inv(s) && f in s.handles && Live(s, s.handles[f].entry)
    ensures Inv(DoClose(s, f))
  {
    hide TableInv, CountInv, AccessInv;
    var i := ById(s.entries, s.handles[f].entry);
    var e := Unlinked(s.entries[i], f);
    if e.refCount > 0 {
      LeaveTable(s, f, i, e);
      LeaveCounts(s, f, i, e);
      LeaveAccess(s, f, i, e);
    } else {
      Positive(s, i);
      FreeTable(s, f, i);
      FreeCounts(s, f, i);
      FreeAccess(s, f, i);
    }
  }

  lemma Positive(s: State, i: nat)
    requires CountInv(s) && i < |s.entries|
    ensures s.entries[i].refCount > 0
  {
  }

  lemma LoseKeeps(s: State, f: nat)
    requires Inv(s) && f in s.handles && Live(s, s.handles[f].entry) && s.handles[f].phase.Failing?
    ensures Inv(DoLose(s, f))
  {
    hide TableInv, CountInv, AccessInv;
    var i := ById(s.entries, s.handles[f].entry);
    var e := s.entries[i].(lost := s.entries[i].lost + 1);
    Positive(s, i);
    NotServer(s, i, f);
    LeaveTable(s, f, i, e);
    LeaveCounts(s, f, i, e);
    LeaveAccess(s, f, i, e);
  }

  lemma NotServer(s: State, i: nat, f: nat)
    requires CountInv(s) && i < |s.entries| && f in s.handles && !s.handles[f].phase.Attached?
    ensures s.entries[i].server != Some(f)
  {
    if s.entries[i].server.Some? {
      assert HeldByServer(s, s.entries[i]);
    }
  }

  lemma InvPreserved(s: State, step: Step)
    requires Inv(s) && Enabled(s, step)
    ensures Inv(Next(s, step))
  {
    hide Inv;
    match step
    case Create(f, name, id, pool) => CreateKeeps(s, f, name, id, pool);
    case Lookup(f, name, attributesOnly, wantsWrite) => LookupKeeps(s, f, name, attributesOnly, wantsWrite);
    case Decide(f) => DecideKeeps(s, f);
    case GiveUp(f, busy) =>
      LoseKeeps(s, f);
      CloseKeeps(s, f);
    case Close(f, _) => CloseKeeps(s, f);
    case Info(f, size, readOnly) =>
      var i := ById(s.entries, s.handles[f].entry);
      EntryKeeps(s, i, s.entries[i].(fileSize := size, readOnly := readOnly));
    case Disconnect(f) =>
      var i := ById(s.entries, s.handles[f].entry);
      EntryKeeps(s, i, s.entries[i].(server := None));
  }

  lemma {:induction false} InvAfter(s: State, run: seq<Step>)
    requires Inv(s) && Possible(s, run)
    ensures Inv(After(s, run))
    decreases run
  {
    hide Inv, Enabled, Next;
    if run != [] {
      InvPreserved(s, run[0]);
      InvAfter(Next(s, run[0]), run[1..]);
    }
  }

  lemma EmptyInv(capitals: Capitals)
    ensures Inv(Empty(capitals))
  {
  }

  // A unit as the system's table makes it a capital.
  function Capital(capitals: Capitals, u: Unit): Unit {
    if u in capitals then capitals[u] else u
  }

  // After any run any two names in the table differ, in length or in some capital.
  lemma NamesStayUnique(capitals: Capitals, run: seq<Step>, i: nat, j: nat)
    requires Possible(Empty(capitals), run) && i < j < |After(Empty(capitals), run).entries|
    ensures var a, b := After(Empty(capitals), run).entries[i].name, After(Empty(capitals), run).entries[j].name;
            |a| != |b| || exists k :: 0 <= k < |a| && Capital(capitals, a[k]) != Capital(capitals, b[k])
  {
    EmptyInv(capitals);
    InvAfter(Empty(capitals), run);
    var entries := After(Empty(capitals), run).entries;
    Differ(capitals, entries[i].name, entries[j].name);
  }

  lemma Differ(capitals: Capitals, a: Name, b: Name)
    requires !SameName(capitals, a, b)
    ensures |a| != |b| || exists k :: 0 <= k < |a| && Capital(capitals, a[k]) != Capital(capitals, b[k])
  {
    var p, q := UpCase(capitals, a), UpCase(capitals, b);
    if |a| == |b| {
      var k :| 0 <= k < |p| && p[k] != q[k];
      assert Capital(capitals, a[k]) == p[k] && Capital(capitals, b[k]) == q[k];
    }
  }

  // After any run every file object that is attached, or still opening, refers to an entry
  // that is in the table, whose count covers all of them.
  lemma NothingFreedWhileHeld(capitals: Capitals, run: seq<Step>, f: nat)
    requires Possible(Empty(capitals), run) && f in After(Empty(capitals), run).handles
    ensures var s := After(Empty(capitals), run);
            && Live(s, s.handles[f].entry)
            && EntryOf(s, f).refCount == |Holders(s, s.handles[f].entry)| + EntryOf(s, f).lost
            && EntryOf(s, f).refCount >= |Holders(s, s.handles[f].entry)| > 0
  {
    EmptyInv(capitals);
    InvAfter(Empty(capitals), run);
    var s := After(Empty(capitals), run);
    assert f in Holders(s, s.handles[f].entry);
  }

  predicate HasData(h: Handle) {
    h.phase.Attached? && (h.phase.read || h.phase.write)
  }

  // While an entry has its server, at most one other file object has access to data.
  lemma OneDataClient(capitals: Capitals, run: seq<Step>, f: nat, g: nat)
    requires Possible(Empty(capitals), run)
    requires var s := After(Empty(capitals), run);
             && f in s.handles && g in s.handles && s.handles[f].entry == s.handles[g].entry
             && HasData(s.handles[f]) && HasData(s.handles[g])
             && Live(s, s.handles[f].entry) && EntryOf(s, f).server.Some?
             && EntryOf(s, f).server != Some(f) && EntryOf(s, f).server != Some(g)
    ensures f == g
  {
    EmptyInv(capitals);
    InvAfter(Empty(capitals), run);
    var s := After(Empty(capitals), run);
    var i := ById(s.entries, s.handles[f].entry);
    assert f in Holders(s, s.entries[i].id) && g in Holders(s, s.entries[i].id);
    assert First(s, s.entries[i], f) && First(s, s.entries[i], g);
  }

  predicate Writes(s: State, f: nat) {
    f in s.handles && s.handles[f].phase.Attached? && s.handles[f].phase.write
  }

  // A step gives a file object write access: it creates the entry, or it is a decision that
  // finds the entry not read-only, and the file object second in it and asking to write.
  predicate GivesWrite(s: State, step: Step, f: nat) {
    step.f == f &&
    (step.Create?
     || (step.Decide? && f in s.handles && Live(s, s.handles[f].entry) && !EntryOf(s, f).readOnly
         && s.handles[f].wantsWrite && !s.handles[f].attributesOnly && s.handles[f].ref == 2))
  }

  lemma WriteStep(s: State, step: Step, f: nat)
    requires Enabled(s, step) && Writes(Next(s, step), f)
    ensures Writes(s, f) || GivesWrite(s, step, f)
  {
    hide ById, Find, Unlinked;
  }

  predicate KeepsWrite(s: State, run: seq<Step>, f: nat)
    requires Possible(s, run)
    decreases run
  {
    Writes(s, f) && (run == [] || KeepsWrite(Next(s, run[0]), run[1..], f))
  }

  predicate WriteGiven(s: State, run: seq<Step>, f: nat)
    requires Possible(s, run)
    decreases run
  {
    run != [] &&
    var s1 := Next(s, run[0]);
    (GivesWrite(s, run[0], f) && KeepsWrite(s1, run[1..], f)) || WriteGiven(s1, run[1..], f)
  }

  lemma {:induction false} WriteInRun(s: State, run: seq<Step>, f: nat)
    requires Possible(s, run) && Writes(After(s, run), f)
    ensures KeepsWrite(s, run, f) || WriteGiven(s, run, f)
    decreases run
  {
    hide Enabled, Next, Writes, GivesWrite;
    if run != [] {
      var s1 := Next(s, run[0]);
      WriteInRun(s1, run[1..], f);
      if KeepsWrite(s1, run[1..], f) {
        WritesNow(s1, run[1..], f);
        WriteStep(s, run[0], f);
      }
    }
  }

  lemma WritesNow(s: State, run: seq<Step>, f: nat)
    requires Possible(s, run) && KeepsWrite(s, run, f)
    ensures Writes(s, f)
  {
  }

  // After any run a file object that can write was given that by a step of the run and has
  // had it since: it created the entry, or the entry was not read-only at that moment.
  lemma WritersWereLetIn(capitals: Capitals, run: seq<Step>, f: nat)
    requires Possible(Empty(capitals), run) && Writes(After(Empty(capitals), run), f)
    ensures WriteGiven(Empty(capitals), run, f)
  {
    hide After, WriteGiven;
    WriteInRun(Empty(capitals), run, f);
  }

  lemma Gone(s: State, i: nat)
    requires DistinctIds(s.entries) && i < |s.entries|
    ensures var entries := s.entries[..i] + s.entries[i + 1..]; ById(entries, s.entries[i].id) == |entries|
  {
    LiveIff(s.entries[..i] + s.entries[i + 1..], s.entries[i].id);
  }

  // A failed open that cannot give back its reference to an entry.
  predicate Loses(s: State, step: Step, id: nat) {
    step.GiveUp? && step.busy && step.f in s.handles && s.handles[step.f].entry == id
  }

  // How often that happened to the entry with an id in a run, while it was in the table;
  // n times before.
  function Losses(s: State, run: seq<Step>, id: nat, n: nat): nat
    requires Possible(s, run)
    decreases run
  {
    if run == [] then n
    else
      var more := if !Live(Next(s, run[0]), id) then 0 else if Loses(s, run[0], id) then n + 1 else n;
      Losses(Next(s, run[0]), run[1..], id, more)
  }

  function LostOf(entries: seq<Entry>, id: nat): nat {
    if ById(entries, id) < |entries| then entries[ById(entries, id)].lost else 0
  }

  lemma LostPushed(e: Entry, entries: seq<Entry>, id: nat)
    ensures LostOf([e] + entries, id) == if id == e.id then e.lost else LostOf(entries, id)
  {
    assert ([e] + entries)[1..] == entries;
  }

  lemma LostChanged(s: State, i: nat, e: Entry, id: nat)
    requires TableInv(s) && i < |s.entries| && e.id == s.entries[i].id && e.name == s.entries[i].name
    ensures LostOf(s.entries[i := e], id) == if id == e.id then e.lost else LostOf(s.entries, id)
    ensures LostOf(s.entries, e.id) == s.entries[i].lost
  {
    Changed(s, i, e);
    AtId(s.entries, i);
    assert ById(s.entries, id) == i ==> id == e.id;
  }

  lemma LostRemoved(s: State, i: nat, id: nat)
    requires TableInv(s) && i < |s.entries|
    ensures var entries := s.entries[..i] + s.entries[i + 1..];
            if id == s.entries[i].id then ById(entries, id) == |entries| else LostOf(entries, id) == LostOf(s.entries, id)
  {
    var entries := s.entries[..i] + s.entries[i + 1..];
    if id == s.entries[i].id {
      Gone(s, i);
    } else if ById(s.entries, id) < |s.entries| {
      OthersDistinct(s, i);
      var k := ById(s.entries, id);
      AtId(entries, if k < i then k else k - 1);
    } else {
      LiveIff(entries, id);
      LiveIff(s.entries, id);
      assert forall j :: 0 <= j < |entries| ==> entries[j] == s.entries[if j < i then j else j + 1];
    }
  }

  // The ghost count of an entry goes up with each loss, and starts from zero.
  lemma LostStepwise(s: State, step: Step, id: nat)
    requires TableInv(s) && Enabled(s, step) && Live(Next(s, step), id)
    ensures LostOf(Next(s, step).entries, id) == LostOf(s.entries, id) + if Loses(s, step, id) then 1 else 0
  {
    hide TableInv, LostOf, ById, Find;
    match step
    case Create(f, name, added, pool) =>
      LostPushed(Entry(added, name, 1, Some(f), None, 0, false, 0), s.entries, id);
      NotLiveYet(s, added);
    case Lookup(f, name, a, w) =>
      var i := Find(s.capitals, s.entries, name);
      if i < |s.entries| {
        LostChanged(s, i, DoLookup(s, f, name, a, w).0.entries[i], id);
      }
    case Decide(f) =>
    case GiveUp(f, busy) => LostLeaving(s, f, id);
    case Close(f, busy) => LostLeaving(s, f, id);
    case Info(f, size, readOnly) =>
      var i := ById(s.entries, s.handles[f].entry);
      LostChanged(s, i, s.entries[i].(fileSize := size, readOnly := readOnly), id);
    case Disconnect(f) =>
      var i := ById(s.entries, s.handles[f].entry);
      LostChanged(s, i, s.entries[i].(server := None), id);
  }

  lemma NotLiveYet(s: State, id: nat)
    ensures !Live(s, id) ==> LostOf(s.entries, id) == 0
  {
  }

  lemma LostLeaving(s: State, f: nat, id: nat)
    requires TableInv(s) && f in s.handles && Live(s, s.handles[f].entry)
    ensures Live(DoClose(s, f), id) ==> LostOf(DoClose(s, f).entries, id) == LostOf(s.entries, id)
    ensures LostOf(DoLose(s, f).entries, id) == LostOf(s.entries, id) + if s.handles[f].entry == id then 1 else 0
  {
    hide TableInv, LostOf, ById, Unlinked;
    var i := ById(s.entries, s.handles[f].entry);
    UnlinkedSame(s.entries[i], f);
    LostChanged(s, i, Unlinked(s.entries[i], f), id);
    LostChanged(s, i, s.entries[i].(lost := s.entries[i].lost + 1), id);
    LostRemoved(s, i, id);
  }

  lemma UnlinkedSame(e: Entry, f: nat)
    ensures var e' := Unlinked(e, f); e'.id == e.id && e'.name == e.name && e'.lost == e.lost && e'.refCount == e.refCount - 1
  {
  }

  lemma {:induction false} LossesCounted(s: State, run: seq<Step>, id: nat)
    requires Inv(s) && Possible(s, run) && Live(After(s, run), id)
    ensures LostOf(After(s, run).entries, id) == Losses(s, run, id, LostOf(s.entries, id))
    decreases run
  {
    hide TableInv, CountInv, AccessInv, Enabled, Next, LostOf, Loses;
    if run != [] {
      var s1 := Next(s, run[0]);
      InvPreserved(s, run[0]);
      LossesCounted(s1, run[1..], id);
      if Live(s1, id) {
        LostStepwise(s, run[0], id);
      } else {
        NotLiveYet(s1, id);
      }
    }
  }

  // After any run, the last file object to leave an entry, by a close or after a failed
  // open, frees it if and only if no failed open on that entry, this one included, was
  // unable to give back its reference since the entry was created.
  lemma LastLeaves(capitals: Capitals, run: seq<Step>, step: Step)
    requires Possible(Empty(capitals), run) && Enabled(After(Empty(capitals), run), step)
    requires step.GiveUp? || (step.Close? && !step.busy)
    requires Holders(After(Empty(capitals), run), After(Empty(capitals), run).handles[step.f].entry) == {step.f}
    ensures var s := After(Empty(capitals), run);
            var id := s.handles[step.f].entry;
            !Live(Next(s, step), id) <==> Losses(Empty(capitals), run, id, 0) == 0 && !Loses(s, step, id)
  {
    hide Possible, After, Losses;
    EmptyInv(capitals);
    InvAfter(Empty(capitals), run);
    var s := After(Empty(capitals), run);
    var id := s.handles[step.f].entry;
    LossesCounted(Empty(capitals), run, id);
    LastLeft(s, step.f);
  }

  lemma LastLeft(s: State, f: nat)
    requires Inv(s) && f in s.handles && Live(s, s.handles[f].entry) && Holders(s, s.handles[f].entry) == {f}
    ensures !Live(DoClose(s, f), s.handles[f].entry) <==> LostOf(s.entries, s.handles[f].entry) == 0
    ensures Live(DoLose(s, f), s.handles[f].entry)
  {
    hide AccessInv, ServersHold, NoneDangling, Unlinked, ById;
    var i := ById(s.entries, s.handles[f].entry);
    UnlinkedSame(s.entries[i], f);
    assert s.entries[i].refCount == 1 + s.entries[i].lost;
    Changed(s, i, s.entries[i].(lost := s.entries[i].lost + 1));
    Changed(s, i, Unlinked(s.entries[i], f));
    Gone(s, i);
  }

  // A lost reference: an opener asks for the attributes of an object that has no size yet,
  // and finds the table lock taken when it gives up. After the server has closed, nobody
  // holds the object and its name, whatever it is, cannot be created again.
  lemma LostReference(capitals: Capitals, name: Name) returns (run: seq<Step>)
    ensures Possible(Empty(capitals), run)
    ensures var s := After(Empty(capitals), run);
            && s.handles == map[] && |s.entries| == 1 && s.entries[0].name == name
            && forall f, id, pool :: DoCreate(s, f, name, id, pool) == (s, Collision)
  {
    run := LostFrom(capitals, name, 0);
  }

  function LostStep(name: Name, k: nat): Step {
    match k
    case 0 => Create(1, name, 7, true)
    case 1 => Lookup(2, name, true, false)
    case 2 => Decide(2)
    case 3 => GiveUp(2, true)
    case _ => Close(1, false)
  }

  function LostStage(capitals: Capitals, name: Name, k: nat): State {
    var server := Handle(7, Attached(true, true), 1, false, true);
    if k == 0 then Empty(capitals)
    else if k == 1 then State(capitals, [Entry(7, name, 1, Some(1), None, 0, false, 0)], map[1 := server])
    else if k == 5 then State(capitals, [Entry(7, name, 1, None, Some(2), 0, false, 1)], map[])
    else State(capitals, [Entry(7, name, 2, Some(1), Some(2), 0, false, if k == 4 then 1 else 0)],
               if k == 2 then map[1 := server, 2 := Handle(7, Looked, 2, true, false)]
               else if k == 3 then map[1 := server, 2 := Handle(7, Failing(NotFound), 2, true, false)]
               else map[1 := server])
  }

  predicate LostLeads(capitals: Capitals, name: Name, k: nat) {
    var s, step := LostStage(capitals, name, k), LostStep(name, k);
    Enabled(s, step) && Next(s, step) == LostStage(capitals, name, k + 1)
  }

  lemma LostOpens(capitals: Capitals, name: Name, k: nat)
    requires k < 3
    ensures LostLeads(capitals, name, k)
  {
  }

  lemma LostGivesUp(capitals: Capitals, name: Name)
    ensures LostLeads(capitals, name, 3)
  {
  }

  lemma LostCloses(capitals: Capitals, name: Name)
    ensures LostLeads(capitals, name, 4)
  {
  }

  lemma LostOne(capitals: Capitals, name: Name, k: nat)
    requires k < 5
    ensures LostLeads(capitals, name, k)
  {
    hide LostLeads;
    if k < 3 {
      LostOpens(capitals, name, k);
    } else if k == 3 {
      LostGivesUp(capitals, name);
    } else {
      LostCloses(capitals, name);
    }
  }

  lemma {:induction false} LostFrom(capitals: Capitals, name: Name, k: nat) returns (run: seq<Step>)
    requires k <= 5
    ensures Possible(LostStage(capitals, name, k), run) && After(LostStage(capitals, name, k), run) == LostStage(capitals, name, 5)
    decreases 5 - k
  {
    hide Enabled, Next, LostStage, LostStep;
    run := [];
    if k < 5 {
      LostOne(capitals, name, k);
      var rest := LostFrom(capitals, name, k + 1);
      run := [LostStep(name, k)] + rest;
      assert run[1..] == rest;
    }
  }
}
