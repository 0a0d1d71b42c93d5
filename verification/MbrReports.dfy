// What the walk reports: which bytes of the disk each reported partition stands in, and that
// every partition that can be reached is reported, in order.

module MbrReports {
  import opened Basics
  import opened Bytes
  import opened MbrWalk
  import opened MbrChains

  // A report carries the fields of the sixteen bytes at a position of the disk; the sector
  // numbers in them count from the byte at base.
  predicate Carries(d: Disk, at: int, size: nat, base: int, p: Info) {
    && 0 <= at && at + 16 <= |d.bytes|
    && p.start == base + size * FromLittleEndian(d.bytes[at + 8..at + 12])
    && p.length == size * FromLittleEndian(d.bytes[at + 12..at + 16])
    && p.hidden == FromLittleEndian(d.bytes[at + 8..at + 12])
    && p.kind == d.bytes[at + 4] && (p.boot <==> d.bytes[at] >= 0x80)
  }

  // Where an entry of the record at an offset stands: the table is at the end of the sector.
  function EntryPlace(size: nat, current: int, e: nat): int {
    current + size - 66 + 16 * e
  }

  // An entry of a record is reported: it is used, and no entry up to it is a container.
  predicate Used(es: seq<Entry>, e: nat) {
    e < |es| && es[e].kind != 0 && forall j :: 0 <= j <= e ==> !Container(es[j].kind)
  }

  // The table of the record at an offset, if there is a record.
  function TableAt(d: Disk, size: nat, current: int): Option<seq<Entry>>
    requires size >= 512
  {
    match ReadAt(d, current, size)
    case Failed => None
    case Read(data) => if |data| != size || !TableOk(ExtendedTable(data)) then None else Some(Entries(ExtendedTable(data)))
  }

  // Entry number entry of record number record of a chain.
  datatype Place = Place(record: nat, entry: nat)

  predicate Before(p: Place, q: Place) {
    p.record < q.record || (p.record == q.record && p.entry < q.entry)
  }

  predicate Reports(d: Disk, size: nat, first: int, current: int, p: Place)
    requires size >= 512
  {
    var at := VisitedFrom(d, size, first, current, p.record);
    at.Some? && var es := TableAt(d, size, at.value); es.Some? && Used(es.value, p.entry)
  }

  // What a list of reports is, place by place.
  ghost predicate Listing(d: Disk, size: nat, first: int, current: int, records: nat, q: seq<Place>, all: seq<Info>)
    requires size >= 512
  {
    && |q| == |all|
    && (forall i :: 0 <= i < |q| ==> PlacedAt(d, size, first, current, records, q[i], all[i]))
    && (forall i, j :: 0 <= i < j < |q| ==> Before(q[i], q[j]))
    && (forall p: Place :: p.record < records && Reports(d, size, first, current, p) ==> p in q)
  }

  predicate PlacedAt(d: Disk, size: nat, first: int, current: int, records: nat, p: Place, info: Info)
    requires size >= 512
  {
    && p.record < records && Reports(d, size, first, current, p)
    && var a := VisitedFrom(d, size, first, current, p.record).value;
       Carries(d, EntryPlace(size, a, p.entry), size, a, info)
  }

  // The entries that one record reports.
  ghost predicate Scans(es: seq<Entry>, from: nat, size: nat, base: int, q: seq<nat>, found: seq<Info>)
    requires from <= |es|
  {
    && |q| == |found|
    && (forall i :: 0 <= i < |q| ==> from <= q[i] && UsedFrom(es, from, q[i]) && Fields(es[q[i]], size, base, found[i]))
    && (forall i, j :: 0 <= i < j < |q| ==> q[i] < q[j])
    && (forall e :: UsedFrom(es, from, e) ==> e in q)
  }

  predicate UsedFrom(es: seq<Entry>, from: nat, e: nat) {
    from <= e < |es| && es[e].kind != 0 && forall j :: from <= j <= e ==> !Container(es[j].kind)
  }

  predicate Fields(e: Entry, size: nat, base: int, p: Info) {
    p.start == base + size * e.start && p.length == size * e.count && p.hidden == e.start && p.kind == e.kind && p.boot == e.boot
  }

  lemma {:induction false} ScanIs(size: nat, base: int, es: seq<Entry>, from: nat, count: nat) returns (q: seq<nat>)
    requires from <= |es|
    ensures Scans(es, from, size, base, q, Scan(size, base, es[from..], count).found)
    decreases |es| - from
  {
    hide Scans;
    q := [];
    if from == |es| {
      ScanStops(size, base, es, from);
    } else {
      assert es[from..][0] == es[from] && es[from..][1..] == es[from + 1..];
      if es[from].kind == 0 {
        q := ScanIs(size, base, es, from + 1, count);
        ScanSkips(size, base, es, from, q, Scan(size, base, es[from + 1..], count).found);
      } else if Container(es[from].kind) {
        ScanStops(size, base, es, from);
      } else {
        q := ScanIs(size, base, es, from + 1, count + 1);
        ScanTakes(size, base, es, from, count, q, Scan(size, base, es[from + 1..], count + 1).found);
        q := [from] + q;
      }
    }
  }

  lemma ScanStops(size: nat, base: int, es: seq<Entry>, from: nat)
    requires from <= |es| && (from == |es| || Container(es[from].kind))
    ensures Scans(es, from, size, base, [], [])
  {
  }

  lemma ScanSkips(size: nat, base: int, es: seq<Entry>, from: nat, q: seq<nat>, found: seq<Info>)
    requires from < |es| && es[from].kind == 0 && Scans(es, from + 1, size, base, q, found)
    ensures Scans(es, from, size, base, q, found)
  {
    hide Fields;
    forall e | UsedFrom(es, from, e) ensures UsedFrom(es, from + 1, e) {
    }
  }

  lemma ScanTakes(size: nat, base: int, es: seq<Entry>, from: nat, count: nat, q: seq<nat>, found: seq<Info>)
    requires from < |es| && es[from].kind != 0 && !Container(es[from].kind) && Scans(es, from + 1, size, base, q, found)
    ensures Scans(es, from, size, base, [from] + q, [Report(size, base, es[from], count + 1)] + found)
  {
    assert Fields(es[from], size, base, Report(size, base, es[from], count + 1));
    hide Fields, Report;
    forall e | UsedFrom(es, from, e) && e != from ensures UsedFrom(es, from + 1, e) {
    }
  }

  // The fields of an entry are those bytes of the disk.
  lemma EntryFieldsAt(d: Disk, size: nat, current: int, data: seq<Byte>, e: nat)
    requires size >= 512 && ReadAt(d, current, size) == Read(data) && |data| == size && e < 4
    ensures 0 <= current && current + size <= |d.bytes|
    ensures var at, entry := EntryPlace(size, current, e), Entries(ExtendedTable(data))[e];
            && entry.kind == d.bytes[at + 4] && (entry.boot <==> d.bytes[at] >= 0x80)
            && entry.start == FromLittleEndian(d.bytes[at + 8..at + 12]) && entry.count == FromLittleEndian(d.bytes[at + 12..at + 16])
  {
    hide FromLittleEndian, ReadAt, ExtendedTable, Entries, EntryAt;
    var table := ExtendedTable(data);
    TableBytes(d, size, current, data, table);
    EntryBytesAt(d, table, current + size - 66, e);
  }

  // The fields of an entry of a table that stands at a base.
  lemma EntryBytesAt(d: Disk, table: seq<Byte>, base: int, e: nat)
    requires 0 <= base && base + 66 <= |d.bytes| && table == d.bytes[base..base + 66] && e < 4
    ensures var at, entry := base + 16 * e, Entries(table)[e];
            && entry.kind == d.bytes[at + 4] && (entry.boot <==> d.bytes[at] >= 0x80)
            && entry.start == FromLittleEndian(d.bytes[at + 8..at + 12]) && entry.count == FromLittleEndian(d.bytes[at + 12..at + 16])
  {
    hide FromLittleEndian;
    EntryOf(table, e);
    TableField(d, table, base, 16 * e + 8);
    TableField(d, table, base, 16 * e + 12);
  }

  lemma EntryOf(table: seq<Byte>, e: nat)
    requires |table| == TABLE_SIZE && e < 4
    ensures Entries(table)[e] == EntryAt(table, e)
  {
    hide EntryAt;
  }

  lemma EntryCarries(d: Disk, size: nat, current: int, e: nat, p: Info)
    requires size >= 512 && e < 4 && TableAt(d, size, current).Some?
    requires Fields(TableAt(d, size, current).value[e], size, current, p)
    ensures Carries(d, EntryPlace(size, current, e), size, current, p)
  {
    hide FromLittleEndian, TableOk, Entries, ReadAt, ExtendedTable;
    EntryFieldsAt(d, size, current, ReadAt(d, current, size).data, e);
  }

  lemma TableBytes(d: Disk, size: nat, current: int, data: seq<Byte>, table: seq<Byte>)
    requires size >= 512 && ReadAt(d, current, size) == Read(data) && |data| == size && table == ExtendedTable(data)
    ensures 0 <= current && current + size <= |d.bytes| && table == d.bytes[current + size - 66..current + size]
  {
  }

  lemma TableField(d: Disk, table: seq<Byte>, base: int, i: nat)
    requires 0 <= base && base + 66 <= |d.bytes| && table == d.bytes[base..base + 66] && i + 4 <= 66
    ensures table[i..i + 4] == d.bytes[base + i..base + i + 4]
  {
    SubSlice(d.bytes, base, base + 66, i, i + 4);
  }

  function Heads(q: seq<nat>): seq<Place> {
    seq(|q|, i requires 0 <= i < |q| => Place(0, q[i]))
  }

  function Later(q: seq<Place>): seq<Place> {
    seq(|q|, i requires 0 <= i < |q| => Place(q[i].record + 1, q[i].entry))
  }

  lemma UsedIs(es: seq<Entry>, e: nat)
    ensures Used(es, e) <==> UsedFrom(es, 0, e)
  {
  }

  // The places of one record, and those of the chain that it leads to.
  lemma HeadPlaced(d: Disk, size: nat, first: int, current: int, records: nat, es: seq<Entry>, e: nat, p: Info)
    requires size >= 512 && records > 0 && TableAt(d, size, current) == Some(es) && |es| == 4
    requires UsedFrom(es, 0, e) && Fields(es[e], size, current, p)
    ensures PlacedAt(d, size, first, current, records, Place(0, e), p)
  {
    hide TableAt, Carries, Fields;
    UsedIs(es, e);
    EntryCarries(d, size, current, e, p);
  }

  lemma Shifted(d: Disk, size: nat, first: int, current: int, next: int, p: Place)
    requires size >= 512 && Successor(d, size, first, current) == Some(next)
    ensures VisitedFrom(d, size, first, current, p.record + 1) == VisitedFrom(d, size, first, next, p.record)
    ensures Reports(d, size, first, current, Place(p.record + 1, p.entry)) <==> Reports(d, size, first, next, p)
  {
    hide Successor, TableAt;
  }

  lemma RestPlaced(d: Disk, size: nat, first: int, current: int, next: int, records: nat, p: Place, info: Info)
    requires size >= 512 && records > 0 && Successor(d, size, first, current) == Some(next)
    requires PlacedAt(d, size, first, next, records - 1, p, info)
    ensures PlacedAt(d, size, first, current, records, Place(p.record + 1, p.entry), info)
  {
    hide Successor, TableAt, Carries, Reports, VisitedFrom;
    Shifted(d, size, first, current, next, p);
  }

  // A chain that stops at its first record, or goes on from there.
  lemma Joined(d: Disk, size: nat, first: int, current: int, records: nat, es: seq<Entry>, q: seq<nat>, found: seq<Info>,
               rest: seq<Place>, more: seq<Info>)
    requires size >= 512 && records > 0 && TableAt(d, size, current) == Some(es) && |es| == 4
    requires Scans(es, 0, size, current, q, found)
    requires match Successor(d, size, first, current)
             case None => rest == [] && more == []
             case Some(next) => Listing(d, size, first, next, records - 1, rest, more)
    ensures Listing(d, size, first, current, records, Heads(q) + Later(rest), found + more)
  {
    hide TableAt, Successor, UsedFrom, Used, PlacedAt, Fields, Carries, Reports;
    var all, places := found + more, Heads(q) + Later(rest);
    forall i | 0 <= i < |places| ensures PlacedAt(d, size, first, current, records, places[i], all[i]) {
      if i < |q| {
        HeadPlaced(d, size, first, current, records, es, q[i], found[i]);
      } else {
        RestPlaced(d, size, first, current, Successor(d, size, first, current).value, records, rest[i - |q|], more[i - |q|]);
      }
    }
    forall p: Place | p.record < records && Reports(d, size, first, current, p) ensures p in places {
      JoinedHas(d, size, first, current, records, es, q, found, rest, more, p);
    }
  }

  lemma JoinedHas(d: Disk, size: nat, first: int, current: int, records: nat, es: seq<Entry>, q: seq<nat>, found: seq<Info>,
                  rest: seq<Place>, more: seq<Info>, p: Place)
    requires size >= 512 && records > 0 && TableAt(d, size, current) == Some(es)
    requires Scans(es, 0, size, current, q, found)
    requires Successor(d, size, first, current).Some? ==>
               Listing(d, size, first, Successor(d, size, first, current).value, records - 1, rest, more)
    requires p.record < records && Reports(d, size, first, current, p)
    ensures p in Heads(q) + Later(rest)
  {
    hide TableAt, Successor, UsedFrom, Used, PlacedAt, Fields, Carries, Reports;
    var places := Heads(q) + Later(rest);
    if p.record == 0 {
      HeadReported(d, size, first, current, es, p);
      var i :| 0 <= i < |q| && q[i] == p.entry;
      assert places[i] == p;
    } else {
      LaterReported(d, size, first, current, p);
      var next, before := Successor(d, size, first, current).value, Place(p.record - 1, p.entry);
      Shifted(d, size, first, current, next, before);
      var i :| 0 <= i < |rest| && rest[i] == before;
      assert places[|q| + i] == p;
    }
  }

  lemma HeadReported(d: Disk, size: nat, first: int, current: int, es: seq<Entry>, p: Place)
    requires size >= 512 && TableAt(d, size, current) == Some(es) && p.record == 0 && Reports(d, size, first, current, p)
    ensures UsedFrom(es, 0, p.entry)
  {
    hide TableAt;
    UsedIs(es, p.entry);
  }

  lemma LaterReported(d: Disk, size: nat, first: int, current: int, p: Place)
    requires size >= 512 && p.record > 0 && Reports(d, size, first, current, p)
    ensures Successor(d, size, first, current).Some?
  {
    hide TableAt, Successor;
  }

  lemma NoRecord(d: Disk, size: nat, first: int, current: int, records: nat)
    requires size >= 512 && (records == 0 || TableAt(d, size, current).None?)
    ensures Listing(d, size, first, current, records, [], [])
  {
    hide TableOk, Entries, LinkOf;
  }

  // The reports of a chain stand in its records, one after the other, in the order of their
  // entries; and every entry of a record that is reported is among them.
  lemma {:induction false} ChainIs(d: Disk, size: nat, first: int, current: int, count: nat, records: nat) returns (q: seq<Place>)
    requires size >= 512
    ensures Listing(d, size, first, current, records, q, Chain(d, size, first, current, count, records).all)
    decreases records
  {
    hide Listing, Scans, Scan, TableOk, Entries, ReadAt, LinkOf, VisitedFrom;
    if records == 0 || TableAt(d, size, current).None? {
      NoRecord(d, size, first, current, records);
      return [];
    }
    var es := TableAt(d, size, current).value;
    ScanLink(size, current, es, count);
    var scanned := ScanIs(size, current, es, 0, count);
    assert es[0..] == es;
    var record := Scan(size, current, es, count);
    var rest, more := [], [];
    if record.link.Next? {
      var next := first + size * record.link.start;
      rest := ChainIs(d, size, first, next, count + |record.found|, records - 1);
      more := Chain(d, size, first, next, count + |record.found|, records - 1).all;
    }
    Joined(d, size, first, current, records, es, scanned, record.found, rest, more);
    q := Heads(scanned) + Later(rest);
    assert record.found + [] == record.found;
  }

  // Where a chain leads on to, in bytes of the disk: from the first container entry of the
  // record, by its sector number, counted from the first record of the chain.
  predicate LeadsOn(d: Disk, size: nat, first: int, current: int, next: int, e: nat)
    requires size >= 512
  {
    && e < 4 && TableAt(d, size, current).Some? && 0 <= current && current + size <= |d.bytes|
    && var at := EntryPlace(size, current, e);
       && (d.bytes[at + 4] == 0x05 || d.bytes[at + 4] == 0x0F)
       && (forall j :: 0 <= j < e ==> !Container(TableAt(d, size, current).value[j].kind))
       && next == first + size * FromLittleEndian(d.bytes[at + 8..at + 12])
  }

  lemma NextRecord(d: Disk, size: nat, first: int, current: int)
    requires size >= 512
    ensures match Successor(d, size, first, current)
            case None => TableAt(d, size, current).None? || forall e :: 0 <= e < 4 ==> !Container(TableAt(d, size, current).value[e].kind)
            case Some(next) => exists e :: LeadsOn(d, size, first, current, next, e)
  {
    hide TableOk, EntryAt, FromLittleEndian;
    if TableAt(d, size, current).Some? {
      var es := TableAt(d, size, current).value;
      if LinkOf(es).Next? {
        var e := FirstContainer(es);
        var data := ReadAt(d, current, size).data;
        EntryFieldsAt(d, size, current, data, e);
        assert LeadsOn(d, size, first, current, first + size * LinkOf(es).start, e);
      } else {
        NoContainer(es);
      }
    }
  }

  lemma {:induction false} FirstContainer(es: seq<Entry>) returns (e: nat)
    requires LinkOf(es).Next?
    ensures e < |es| && Container(es[e].kind) && es[e].start == LinkOf(es).start && forall j :: 0 <= j < e ==> !Container(es[j].kind)
  {
    e := 0;
    if !Container(es[0].kind) {
      e := FirstContainer(es[1..]);
      e := e + 1;
    }
  }

  lemma {:induction false} NoContainer(es: seq<Entry>)
    requires LinkOf(es) == End
    ensures forall j :: 0 <= j < |es| ==> !Container(es[j].kind)
  {
    if es != [] {
      NoContainer(es[1..]);
    }
  }

  // What makes a record: a whole sector that can be read, the signature at its end, and no
  // flag besides the boot indicator in any entry.
  lemma RecordIs(d: Disk, size: nat, current: int)
    requires size >= 512
    ensures TableAt(d, size, current).Some? <==>
              && current !in d.failing && 0 <= current && current + size <= |d.bytes|
              && d.bytes[current + size - 2] == 0x55 && d.bytes[current + size - 1] == 0xAA
              && forall e: nat :: e < 4 ==> d.bytes[EntryPlace(size, current, e)] % 0x80 == 0
  {
    if current !in d.failing && 0 <= current && current + size <= |d.bytes| {
      var data := ReadAt(d, current, size).data;
      var table := ExtendedTable(data);
      assert forall e: nat :: e < 4 ==> table[16 * e] == d.bytes[EntryPlace(size, current, e)];
    }
  }

  // A partition stands in an entry of the boot record, or in a chain behind one.
  datatype Source = Primary(slot: nat) | Logical(slot: nat, place: Place)

  predicate Earlier(x: Source, y: Source) {
    x.slot < y.slot || (x.slot == y.slot && x.Logical? && y.Logical? && Before(x.place, y.place))
  }

  // The chain behind a container entry is read to its end.
  predicate Ends(d: Disk, size: nat, first: int, records: nat)
    requires size >= 512
  {
    Chain(d, size, first, first, 0, records).verdict == Complete
  }

  lemma {:induction false} SameVerdict(d: Disk, size: nat, first: int, current: int, count: nat, other: nat, records: nat)
    requires size >= 512
    ensures Chain(d, size, first, current, count, records).verdict == Chain(d, size, first, current, other, records).verdict
    decreases records
  {
    hide Scan, TableOk, Entries, ReadAt, LinkOf;
    if records > 0 && TableAt(d, size, current).Some? {
      var es := TableAt(d, size, current).value;
      ScanLink(size, current, es, count);
      ScanLink(size, current, es, other);
      var a, b := Scan(size, current, es, count), Scan(size, current, es, other);
      if a.link.Next? {
        SameVerdict(d, size, first, first + size * a.link.start, count + |a.found|, other + |b.found|, records - 1);
      }
    }
  }

  // The walk comes to a slot if every chain behind a slot before it is read to its end.
  predicate Comes(d: Disk, size: nat, offset: int, es: seq<Entry>, from: nat, slot: nat, records: nat)
    requires size >= 512
  {
    from <= slot < |es| && forall j :: from <= j < slot && Container(es[j].kind) ==> Ends(d, size, offset + size * es[j].start, records)
  }

  predicate Reached(d: Disk, size: nat, offset: int, es: seq<Entry>, from: nat, records: nat, x: Source)
    requires size >= 512
  {
    && Comes(d, size, offset, es, from, x.slot, records)
    && match x
       case Primary(slot) => es[slot].kind != 0 && !Container(es[slot].kind)
       case Logical(slot, place) =>
         var at := offset + size * es[slot].start;
         Container(es[slot].kind) && place.record < records && Reports(d, size, at, at, place)
  }

  predicate ReachedAt(d: Disk, size: nat, offset: int, es: seq<Entry>, from: nat, records: nat, x: Source, info: Info)
    requires size >= 512
  {
    && Reached(d, size, offset, es, from, records, x)
    && match x
       case Primary(slot) => Fields(es[slot], size, 0, info)
       case Logical(slot, place) => var at := offset + size * es[slot].start; PlacedAt(d, size, at, at, records, place, info)
  }

  ghost predicate Whole(d: Disk, size: nat, offset: int, es: seq<Entry>, from: nat, records: nat, q: seq<Source>, all: seq<Info>)
    requires size >= 512
  {
    && |q| == |all|
    && (forall i :: 0 <= i < |q| ==> ReachedAt(d, size, offset, es, from, records, q[i], all[i]))
    && (forall i, j :: 0 <= i < j < |q| ==> Earlier(q[i], q[j]))
    && (forall x: Source :: Reached(d, size, offset, es, from, records, x) ==> x in q)
  }

  function Behind(slot: nat, q: seq<Place>): seq<Source> {
    seq(|q|, i requires 0 <= i < |q| => Logical(slot, q[i]))
  }

  // The slots behind one that the walk gets past.
  lemma LaterSlots(d: Disk, size: nat, offset: int, es: seq<Entry>, from: nat, records: nat, x: Source)
    requires size >= 512 && from < |es| && x.slot > from
    ensures Reached(d, size, offset, es, from, records, x) <==>
              && (Container(es[from].kind) ==> Ends(d, size, offset + size * es[from].start, records))
              && Reached(d, size, offset, es, from + 1, records, x)
  {
    hide Ends, Reports;
  }

  lemma WholeOn(d: Disk, size: nat, offset: int, es: seq<Entry>, from: nat, records: nat, head: seq<Source>, found: seq<Info>,
                rest: seq<Source>, more: seq<Info>)
    requires size >= 512 && from < |es| && |head| == |found|
    requires forall i :: 0 <= i < |head| ==> head[i].slot == from && ReachedAt(d, size, offset, es, from, records, head[i], found[i])
    requires forall i, j :: 0 <= i < j < |head| ==> Earlier(head[i], head[j])
    requires forall x: Source :: x.slot == from && Reached(d, size, offset, es, from, records, x) ==> x in head
    requires if Container(es[from].kind) && !Ends(d, size, offset + size * es[from].start, records) then rest == [] && more == []
             else Whole(d, size, offset, es, from + 1, records, rest, more)
    ensures Whole(d, size, offset, es, from, records, head + rest, found + more)
  {
    hide Ends, Reports, Fields, PlacedAt, Reached;
    var q, all := head + rest, found + more;
    forall i | |head| <= i < |q| ensures q[i].slot > from && ReachedAt(d, size, offset, es, from, records, q[i], all[i]) {
      assert ReachedAt(d, size, offset, es, from + 1, records, rest[i - |head|], more[i - |head|]);
      SlotLater(d, size, offset, es, from + 1, records, rest[i - |head|]);
      LaterSlots(d, size, offset, es, from, records, rest[i - |head|]);
    }
    forall x: Source | Reached(d, size, offset, es, from, records, x) ensures x in q {
      SlotLater(d, size, offset, es, from, records, x);
      if x.slot > from {
        LaterSlots(d, size, offset, es, from, records, x);
        assert x in rest;
      }
    }
  }

  lemma SlotLater(d: Disk, size: nat, offset: int, es: seq<Entry>, from: nat, records: nat, x: Source)
    requires size >= 512 && Reached(d, size, offset, es, from, records, x)
    ensures x.slot >= from
  {
  }

  // The chain behind a container entry, as sources.
  lemma BehindIs(d: Disk, size: nat, offset: int, es: seq<Entry>, from: nat, records: nat, q: seq<Place>, found: seq<Info>)
    requires size >= 512 && from < |es| && Container(es[from].kind)
    requires var at := offset + size * es[from].start; Listing(d, size, at, at, records, q, found)
    ensures |Behind(from, q)| == |found|
    ensures forall i :: 0 <= i < |found| ==>
              Behind(from, q)[i].slot == from && ReachedAt(d, size, offset, es, from, records, Behind(from, q)[i], found[i])
    ensures forall i, j :: 0 <= i < j < |q| ==> Earlier(Behind(from, q)[i], Behind(from, q)[j])
    ensures forall x: Source :: x.slot == from && Reached(d, size, offset, es, from, records, x) ==> x in Behind(from, q)
  {
    hide Reports, Carries, VisitedFrom;
    forall x: Source | x.slot == from && Reached(d, size, offset, es, from, records, x) ensures x in Behind(from, q) {
      assert x.place in q;
      var i :| 0 <= i < |q| && q[i] == x.place;
      assert Behind(from, q)[i] == x;
    }
  }

  lemma {:induction false} ListIs(d: Disk, size: nat, offset: int, es: seq<Entry>, from: nat, count: nat, records: nat)
    returns (q: seq<Source>)
    requires size >= 512 && from <= |es|
    ensures Whole(d, size, offset, es, from, records, q, List(d, size, offset, es[from..], count, records).all)
    decreases |es| - from
  {
    hide Whole, Chain, Listing;
    q := [];
    if from == |es| {
      NoSlots(d, size, offset, es, records);
    } else {
      assert es[from..][0] == es[from] && es[from..][1..] == es[from + 1..];
      var e := es[from];
      if Container(e.kind) {
        var at := offset + size * e.start;
        SameVerdict(d, size, at, at, count, 0, records);
        var places := ChainIs(d, size, at, at, count, records);
        var chain := Chain(d, size, at, at, count, records);
        if chain.verdict == Complete {
          q := ListIs(d, size, offset, es, from + 1, count + |chain.all|, records);
          var more := List(d, size, offset, es[from + 1..], count + |chain.all|, records).all;
          ContainerOn(d, size, offset, es, from, records, places, chain.all, q, more);
        } else {
          ContainerOn(d, size, offset, es, from, records, places, chain.all, [], []);
          assert chain.all + [] == chain.all;
        }
        q := Behind(from, places) + q;
      } else if e.kind != 0 {
        q := ListIs(d, size, offset, es, from + 1, count + 1, records);
        PrimaryOn(d, size, offset, es, from, count, records, q, List(d, size, offset, es[from + 1..], count + 1, records).all);
        q := [Primary(from)] + q;
      } else {
        q := ListIs(d, size, offset, es, from + 1, count, records);
        UnusedOn(d, size, offset, es, from, records, q, List(d, size, offset, es[from + 1..], count, records).all);
      }
    }
  }

  lemma NoSlots(d: Disk, size: nat, offset: int, es: seq<Entry>, records: nat)
    requires size >= 512
    ensures Whole(d, size, offset, es, |es|, records, [], [])
  {
    hide Reports, Ends;
  }

  lemma ContainerOn(d: Disk, size: nat, offset: int, es: seq<Entry>, from: nat, records: nat, places: seq<Place>, found: seq<Info>,
                    rest: seq<Source>, more: seq<Info>)
    requires size >= 512 && from < |es| && Container(es[from].kind)
    requires var at := offset + size * es[from].start;
             && Listing(d, size, at, at, records, places, found)
             && (if Ends(d, size, at, records) then Whole(d, size, offset, es, from + 1, records, rest, more) else rest == [] && more == [])
    ensures Whole(d, size, offset, es, from, records, Behind(from, places) + rest, found + more)
  {
    hide Whole, Listing, Ends, Reached, ReachedAt;
    BehindIs(d, size, offset, es, from, records, places, found);
    WholeOn(d, size, offset, es, from, records, Behind(from, places), found, rest, more);
  }

  lemma PrimaryOn(d: Disk, size: nat, offset: int, es: seq<Entry>, from: nat, count: nat, records: nat, rest: seq<Source>, more: seq<Info>)
    requires size >= 512 && from < |es| && es[from].kind != 0 && !Container(es[from].kind)
    requires Whole(d, size, offset, es, from + 1, records, rest, more)
    ensures Whole(d, size, offset, es, from, records, [Primary(from)] + rest, [Report(size, 0, es[from], count + 1)] + more)
  {
    hide Whole, Ends, Reached, ReachedAt;
    PrimaryIs(d, size, offset, es, from, count, records);
    WholeOn(d, size, offset, es, from, records, [Primary(from)], [Report(size, 0, es[from], count + 1)], rest, more);
  }

  lemma UnusedOn(d: Disk, size: nat, offset: int, es: seq<Entry>, from: nat, records: nat, rest: seq<Source>, more: seq<Info>)
    requires size >= 512 && from < |es| && es[from].kind == 0 && Whole(d, size, offset, es, from + 1, records, rest, more)
    ensures Whole(d, size, offset, es, from, records, rest, more)
  {
    hide Whole, Ends, Reports, ReachedAt;
    WholeOn(d, size, offset, es, from, records, [], [], rest, more);
    assert [] + rest == rest && [] + more == more;
  }

  lemma PrimaryIs(d: Disk, size: nat, offset: int, es: seq<Entry>, from: nat, count: nat, records: nat)
    requires size >= 512 && from < |es| && es[from].kind != 0 && !Container(es[from].kind)
    ensures ReachedAt(d, size, offset, es, from, records, Primary(from), Report(size, 0, es[from], count + 1))
    ensures forall x: Source :: x.slot == from && Reached(d, size, offset, es, from, records, x) ==> x == Primary(from)
  {
  }

  // The boot record's own entries stand at a fixed place, and their sector numbers count
  // from the start of the disk.
  lemma BootCarries(d: Disk, size: nat, offset: int, e: nat, p: Info)
    requires size >= 512 && e < 4 && ReadAt(d, offset, size).Read? && |ReadAt(d, offset, size).data| == size
    requires Fields(Entries(BootTable(ReadAt(d, offset, size).data))[e], size, 0, p)
    ensures Carries(d, offset + 446 + 16 * e, size, 0, p)
  {
    hide FromLittleEndian, Entries, EntryAt;
    var data := ReadAt(d, offset, size).data;
    BootBytes(d, size, offset, data);
    EntryBytesAt(d, BootTable(data), offset + 446, e);
  }

  lemma BootBytes(d: Disk, size: nat, offset: int, data: seq<Byte>)
    requires size >= 512 && ReadAt(d, offset, size) == Read(data) && |data| == size
    ensures 0 <= offset && offset + size <= |d.bytes| && BootTable(data) == d.bytes[offset + 446..offset + 446 + 66]
  {
  }

  // Every reported partition stands in an entry of the boot record, or of a record of the
  // chain behind one, with the fields that are there; the reports come in the order of the
  // entries; and every such entry that the walk comes to is reported.
  lemma ReportsAreEntries(d: Disk, sectorSize: nat, offset: int, records: nat) returns (q: seq<Source>)
    requires (sectorSize == 0 || sectorSize >= 512) && Partitions(d, sectorSize, offset, records).Listed?
    ensures var size, all := if sectorSize == 0 then 512 else sectorSize, Partitions(d, sectorSize, offset, records).all;
            && ReadAt(d, offset, size).Read? && |ReadAt(d, offset, size).data| == size
            && Whole(d, size, offset, Entries(BootTable(ReadAt(d, offset, size).data)), 0, records, q, all)
            && forall i :: 0 <= i < |q| && q[i].Primary? ==> Carries(d, offset + 446 + 16 * q[i].slot, size, 0, all[i])
  {
    hide List, Fields, Carries, EntryAt, TableOk, PlacedAt, Reached;
    var size := SectorSize(sectorSize);
    var es := Entries(BootTable(ReadAt(d, offset, size).data));
    q := ListIs(d, size, offset, es, 0, 0, records);
    assert es[0..] == es;
    var all := Partitions(d, sectorSize, offset, records).all;
    forall i | 0 <= i < |q| && q[i].Primary? ensures Carries(d, offset + 446 + 16 * q[i].slot, size, 0, all[i]) {
      assert ReachedAt(d, size, offset, es, 0, records, q[i], all[i]);
      SlotIs(d, size, offset, es, 0, records, q[i]);
      BootCarries(d, size, offset, q[i].slot, all[i]);
    }
  }

  lemma SlotIs(d: Disk, size: nat, offset: int, es: seq<Entry>, from: nat, records: nat, x: Source)
    requires size >= 512 && Reached(d, size, offset, es, from, records, x)
    ensures x.slot < |es|
  {
  }
}
