// The driver's table of named objects: file objects attach to an entry by creating it
// (the server) or opening it (clients), and the entry is freed with its last reference.
// One step is one region under the table lock, or what an opening thread decides after it.

module FileTable {
  import opened Basics

  // A name is a string of 16-bit units, and the system has a table of capitals for them.
  type Unit = u: nat | u < 0x1_0000
  type Name = seq<Unit>
  type Capitals = map<Unit, Unit>

  // One context in the table. lost counts references of file objects that are gone.
  datatype Entry = Entry(id: nat, name: Name, refCount: int, server: Option<nat>, client: Option<nat>,
                         fileSize: nat, readOnly: bool, lost: nat)

  datatype Phase = Looked | Failing(status: Status) | Attached(read: bool, write: bool)

  datatype Status = Success | Busy | InUse | NotFound | Collision | Sharing | Protected | NoResources

  // A file object that holds a reference, with the number it drew.
  datatype Handle = Handle(entry: nat, phase: Phase, ref: int, attributesOnly: bool, wantsWrite: bool)

  // capitals is the system's and never changes.
  datatype State = State(capitals: Capitals, entries: seq<Entry>, handles: map<nat, Handle>)

  function Upper(capitals: Capitals, u: Unit): Unit {
    if u in capitals then capitals[u] else u
  }

  function UpCase(capitals: Capitals, s: Name): Name {
    seq(|s|, i requires 0 <= i < |s| => Upper(capitals, s[i]))
  }

  predicate SameName(capitals: Capitals, a: Name, b: Name) {
    UpCase(capitals, a) == UpCase(capitals, b)
  }

  // First entry with a name, or the number of entries.
  function Find(capitals: Capitals, entries: seq<Entry>, name: Name): (i: nat)
    ensures i <= |entries| && (i < |entries| ==> SameName(capitals, name, entries[i].name))
    ensures forall j :: 0 <= j < i ==> !SameName(capitals, name, entries[j].name)
  {
    if entries == [] || SameName(capitals, name, entries[0].name) then 0 else 1 + Find(capitals, entries[1..], name)
  }

  // The entry with an id, or the number of entries.
  function ById(entries: seq<Entry>, id: nat): (i: nat)
    ensures i <= |entries| && (i < |entries| ==> entries[i].id == id)
    ensures forall j :: 0 <= j < i ==> entries[j].id != id
  {
    if entries == [] || entries[0].id == id then 0 else 1 + ById(entries[1..], id)
  }

  predicate Live(s: State, id: nat) {
    ById(s.entries, id) < |s.entries|
  }

  function EntryOf(s: State, f: nat): Entry
    requires f in s.handles && Live(s, s.handles[f].entry)
  {
    s.entries[ById(s.entries, s.handles[f].entry)]
  }

  // DevIoDrvCreateFileTableEntry, with the lock free.
  function DoCreate(s: State, f: nat, name: Name, id: nat, pool: bool): (State, Status) {
    if Find(s.capitals, s.entries, name) < |s.entries| then (s, Collision)
    else if !pool then (s, NoResources)
    else (s.(entries := [Entry(id, name, 1, Some(f), None, 0, false, 0)] + s.entries,
             handles := s.handles[f := Handle(id, Attached(true, true), 1, false, true)]), Success)
  }

  // DevIoDrvOpenFileTableEntry up to the release of the lock.
  function DoLookup(s: State, f: nat, name: Name, attributesOnly: bool, wantsWrite: bool): (State, Status) {
    var i := Find(s.capitals, s.entries, name);
    if i == |s.entries| then (s, NotFound)
    else
      var e := s.entries[i];
      var ref := e.refCount + 1;
      var e' := e.(refCount := ref, client := if ref == 2 then Some(f) else e.client);
      (s.(entries := s.entries[i := e'], handles := s.handles[f := Handle(e.id, Looked, ref, attributesOnly, wantsWrite)]), Success)
  }

  // What the opener decides after that.
  function Decision(h: Handle, e: Entry): Phase {
    if h.attributesOnly && e.fileSize == 0 then Failing(NotFound)
    else if !h.attributesOnly && h.ref != 2 then Failing(Sharing)
    else if h.wantsWrite && e.readOnly then Failing(Protected)
    else if h.attributesOnly then Attached(false, false)
    else Attached(true, h.wantsWrite)
  }

  function DoDecide(s: State, f: nat): State
    requires f in s.handles && Live(s, s.handles[f].entry)
  {
    var h := s.handles[f];
    s.(handles := s.handles[f := h.(phase := Decision(h, EntryOf(s, f)))])
  }

  // DevIoDrvCloseFileTableEntry, with the lock free.
  function Unlinked(e: Entry, f: nat): Entry {
    if e.server == Some(f) then e.(server := None, refCount := e.refCount - 1)
    else if e.client == Some(f) then e.(client := None, refCount := e.refCount - 1)
    else e.(refCount := e.refCount - 1)
  }

  function DoClose(s: State, f: nat): State
    requires f in s.handles && Live(s, s.handles[f].entry)
  {
    var i := ById(s.entries, s.handles[f].entry);
    var e := Unlinked(s.entries[i], f);
    s.(entries := if e.refCount > 0 then s.entries[i := e] else s.entries[..i] + s.entries[i + 1..], handles := s.handles - {f})
  }

  // A failed open that finds the lock taken when it gives its reference back: the result
  // of the close is not looked at, and nobody closes that file object again.
  function DoLose(s: State, f: nat): State
    requires f in s.handles && Live(s, s.handles[f].entry)
  {
    var i := ById(s.entries, s.handles[f].entry);
    s.(entries := s.entries[i := s.entries[i].(lost := s.entries[i].lost + 1)], handles := s.handles - {f})
  }

  // The server's information response, and the disconnect of a cleanup.
  function DoInfo(s: State, f: nat, size: nat, readOnly: bool): State
    requires f in s.handles && Live(s, s.handles[f].entry)
  {
    var i := ById(s.entries, s.handles[f].entry);
    s.(entries := s.entries[i := s.entries[i].(fileSize := size, readOnly := readOnly)])
  }

  function DoDisconnect(s: State, f: nat): State
    requires f in s.handles && Live(s, s.handles[f].entry)
  {
    var i := ById(s.entries, s.handles[f].entry);
    s.(entries := s.entries[i := s.entries[i].(server := None)])
  }

  datatype Step =
    | Create(f: nat, name: Name, id: nat, pool: bool)
    | Lookup(f: nat, name: Name, attributesOnly: bool, wantsWrite: bool)
    | Decide(f: nat)
    | GiveUp(f: nat, busy: bool)     // the close of a failed open
    | Close(f: nat, busy: bool)      // the close of an attached file object, tried again while busy
    | Info(f: nat, size: nat, readOnly: bool)
    | Disconnect(f: nat)

  predicate Enabled(s: State, step: Step) {
    match step
    case Create(f, _, id, _) => f !in s.handles && !Live(s, id)
    case Lookup(f, _, _, _) => f !in s.handles
    case Decide(f) => f in s.handles && Live(s, s.handles[f].entry) && s.handles[f].phase.Looked?
    case GiveUp(f, _) => f in s.handles && Live(s, s.handles[f].entry) && s.handles[f].phase.Failing?
    case Close(f, _) => f in s.handles && Live(s, s.handles[f].entry) && s.handles[f].phase.Attached?
    case Info(f, _, _) => f in s.handles && Live(s, s.handles[f].entry) && EntryOf(s, f).server == Some(f)
    case Disconnect(f) => f in s.handles && Live(s, s.handles[f].entry) && s.handles[f].phase.Attached?
  }

  function Next(s: State, step: Step): (s': State)
    requires Enabled(s, step)
    ensures s'.capitals == s.capitals
  {
    match step
    case Create(f, name, id, pool) => DoCreate(s, f, name, id, pool).0
    case Lookup(f, name, attributesOnly, wantsWrite) => DoLookup(s, f, name, attributesOnly, wantsWrite).0
    case Decide(f) => DoDecide(s, f)
    case GiveUp(f, busy) => if busy then DoLose(s, f) else DoClose(s, f)
    case Close(f, busy) => if busy then s else DoClose(s, f)
    case Info(f, size, readOnly) => DoInfo(s, f, size, readOnly)
    case Disconnect(f) => DoDisconnect(s, f)
  }

  predicate Possible(s: State, run: seq<Step>)
    decreases run
  {
    run == [] || (Enabled(s, run[0]) && Possible(Next(s, run[0]), run[1..]))
  }

  function After(s: State, run: seq<Step>): (s': State)
    requires Possible(s, run)
    ensures s'.capitals == s.capitals
    decreases run
  {
    if run == [] then s else After(Next(s, run[0]), run[1..])
  }

  function Empty(capitals: Capitals): State {
    State(capitals, [], map[])
  }
}
