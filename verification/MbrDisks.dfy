// Small disks at which the walk shows what it does.

module MbrDisks {
  import opened Bytes
  import opened MbrWalk
  import opened MbrChains
  import opened MbrStops

  // Small disks, sector by sector: four table entries of a kind and a start.
  function Slot(kind: Byte, start: Byte): (e: seq<Byte>)
    ensures |e| == 16
  {
    [0, 0, 0, 0, kind, 0, 0, 0, start, 0, 0, 0, 0, 0, 0, 0]
  }

  function TableSector(a: seq<Byte>, b: seq<Byte>, c: seq<Byte>, e: seq<Byte>): (s: seq<Byte>)
    requires |a| == |b| == |c| == |e| == 16
    ensures |s| == DEFAULT_SECTOR
  {
    seq(TABLE, _ => 0) + (a + b + c + e + [0x55, 0xAA])
  }

  function SlotEntry(kind: Byte, start: Byte): Entry {
    Entry(start, 0, kind, false)
  }

  lemma SlotIs(table: seq<Byte>, i: nat, kind: Byte, start: Byte)
    requires |table| == TABLE_SIZE && i < 4 && table[16 * i..16 * i + 16] == Slot(kind, start)
    ensures EntryAt(table, i) == SlotEntry(kind, start) && table[16 * i] == 0
  {
    var e, at := Slot(kind, start), 16 * i;
    assert table[at..at + 16][0] == table[at] && table[at..at + 16][4] == table[at + 4];
    SubSlice(table, at, at + 16, 8, 12);
    SubSlice(table, at, at + 16, 12, 16);
    assert e[8..12] == [start, 0, 0, 0] && e[12..16] == [0, 0, 0, 0];
    NoByte([0, 0, 0]);
    NoByte([0, 0, 0, 0]);
  }

  lemma {:induction false} NoByte(d: seq<Byte>)
    requires forall i :: 0 <= i < |d| ==> d[i] == 0
    ensures FromLittleEndian(d) == 0
  {
    if d != [] {
      NoByte(d[1..]);
    }
  }

  lemma SectorTable(k0: Byte, s0: Byte, k1: Byte, s1: Byte, k2: Byte, s2: Byte, k3: Byte, s3: Byte)
    ensures var sector := TableSector(Slot(k0, s0), Slot(k1, s1), Slot(k2, s2), Slot(k3, s3));
            && ExtendedTable(sector) == BootTable(sector) && TableOk(BootTable(sector))
            && Entries(BootTable(sector)) == [SlotEntry(k0, s0), SlotEntry(k1, s1), SlotEntry(k2, s2), SlotEntry(k3, s3)]
  {
    hide Slot, EntryAt;
    var table := Slot(k0, s0) + Slot(k1, s1) + Slot(k2, s2) + Slot(k3, s3) + [0x55, 0xAA];
    var sector := TableSector(Slot(k0, s0), Slot(k1, s1), Slot(k2, s2), Slot(k3, s3));
    assert BootTable(sector) == ExtendedTable(sector) == table;
    assert table[0..16] == Slot(k0, s0) && table[16..32] == Slot(k1, s1);
    assert table[32..48] == Slot(k2, s2) && table[48..64] == Slot(k3, s3);
    SlotIs(table, 0, k0, s0);
    SlotIs(table, 1, k1, s1);
    SlotIs(table, 2, k2, s2);
    SlotIs(table, 3, k3, s3);
  }

  // A disk whose two extended records link to each other.
  function Loop(): Disk {
    Disk(Linking(1) + Linking(1) + Linking(0), {})
  }

  function Linking(start: Byte): (s: seq<Byte>)
    ensures |s| == DEFAULT_SECTOR
  {
    TableSector(Slot(5, start), Slot(0, 0), Slot(0, 0), Slot(0, 0))
  }

  lemma LinkingIs(start: Byte)
    ensures var sector := Linking(start);
            && ExtendedTable(sector) == BootTable(sector) && TableOk(BootTable(sector))
            && Entries(BootTable(sector))[0] == SlotEntry(5, start)
  {
    hide TableOk, BootTable, Entries, ExtendedTable, Slot;
    SectorTable(5, start, 0, 0, 0, 0, 0, 0);
  }

  lemma LoopSectors()
    ensures ReadAt(Loop(), 0, 512) == Read(Linking(1))
    ensures ReadAt(Loop(), 512, 512) == Read(Linking(1)) && ReadAt(Loop(), 1024, 512) == Read(Linking(0))
  {
    hide Linking;
    var b := Loop().bytes;
    assert b[0..512] == Linking(1) && b[512..1024] == Linking(1) && b[1024..1536] == Linking(0);
  }

  // One record of a chain: what it reports and where it leads.
  lemma RecordRead(d: Disk, first: int, current: int, count: nat, records: nat, sector: seq<Byte>)
    requires records > 0 && ReadAt(d, current, 512) == Read(sector) && |sector| == 512 && TableOk(ExtendedTable(sector))
    ensures var record, chain := Scan(512, current, Entries(ExtendedTable(sector)), count), Chain(d, 512, first, current, count, records);
            record.link.Next? ==>
              var rest := Chain(d, 512, first, first + 512 * record.link.start, count + |record.found|, records - 1);
              chain == Found(record.found + rest.all, rest.verdict)
  {
    hide Scan, TableOk, Entries, ReadAt, ExtendedTable;
  }

  lemma {:induction false} LoopChain(current: int, records: nat)
    requires current == 512 || current == 1024
    ensures Chain(Loop(), 512, 512, current, 0, records) == Found([], Unfinished)
    decreases records
  {
    hide Loop, Linking, TableOk, BootTable, Entries, ExtendedTable, ReadAt, Chain;
    if records == 0 {
      NoRecords(Loop(), 512, current, 0);
    } else {
      LoopSectors();
      var start: Byte := if current == 512 then 1 else 0;
      LinkingIs(start);
      RecordRead(Loop(), 512, current, 0, records, Linking(start));
      LoopChain(512 + 512 * start, records - 1);
    }
  }

  lemma NoRecords(d: Disk, first: int, current: int, count: nat)
    ensures Chain(d, 512, first, current, count, 0) == Found([], Unfinished)
  {
  }

  // A listing whose first entry is a container with a chain that is not done.
  lemma UnfinishedFirst(d: Disk, es: seq<Entry>, start: Byte, records: nat)
    requires es != [] && es[0] == SlotEntry(5, start)
    requires Chain(d, 512, 512 * start, 512 * start, 0, records).verdict == Unfinished
    ensures List(d, 512, 0, es, 0, records) == Chain(d, 512, 512 * start, 512 * start, 0, records)
  {
    hide Chain;
  }

  // The walk of this disk reports nothing and is never done: no callback can stop it, and no
  // number of records is enough.
  lemma LoopNeverEnds(given: Data, records: nat)
    ensures Partitions(Loop(), 512, 0, records) == Listed([], Unfinished)
    ensures !EndsWithin(Loop(), 512, 0, given, records)
  {
    hide Loop, Linking, TableOk, BootTable, Entries, ExtendedTable, ReadAt, Chain, List;
    LoopSectors();
    LinkingIs(1);
    LoopChain(512, records);
    UnfinishedFirst(Loop(), Entries(BootTable(Linking(1))), 1, records);
  }

  // A disk whose extended record has one partition and a link to itself.
  function Ring(): Disk {
    Disk(Linking(1) + Ringing(), {})
  }

  function Ringing(): (s: seq<Byte>)
    ensures |s| == DEFAULT_SECTOR
  {
    TableSector(Slot(7, 1), Slot(5, 0), Slot(0, 0), Slot(0, 0))
  }

  lemma RingingIs()
    ensures var sector := Ringing();
            && ExtendedTable(sector) == BootTable(sector) && TableOk(BootTable(sector))
            && Entries(BootTable(sector)) == [SlotEntry(7, 1), SlotEntry(5, 0), SlotEntry(0, 0), SlotEntry(0, 0)]
  {
    hide TableOk, BootTable, Entries, ExtendedTable, Slot;
    SectorTable(7, 1, 5, 0, 0, 0, 0, 0);
  }

  lemma RingSectors()
    ensures ReadAt(Ring(), 0, 512) == Read(Linking(1)) && ReadAt(Ring(), 512, 512) == Read(Ringing())
  {
    hide Linking, Ringing;
    var b := Ring().bytes;
    assert b[0..512] == Linking(1) && b[512..1024] == Ringing();
  }

  lemma RingScanned(count: nat)
    ensures var es := [SlotEntry(7, 1), SlotEntry(5, 0), SlotEntry(0, 0), SlotEntry(0, 0)];
            Scan(512, 512, es, count).link == Next(0) && |Scan(512, 512, es, count).found| == 1
  {
    var es := [SlotEntry(7, 1), SlotEntry(5, 0), SlotEntry(0, 0), SlotEntry(0, 0)];
    assert es[1..][0] == SlotEntry(5, 0);
  }

  lemma {:induction false} RingChain(count: nat, records: nat)
    ensures var chain := Chain(Ring(), 512, 512, 512, count, records); |chain.all| == records && chain.verdict == Unfinished
    decreases records
  {
    hide Ring, Ringing, TableOk, BootTable, Entries, ExtendedTable, ReadAt, Chain, Scan, SlotEntry;
    if records == 0 {
      NoRecords(Ring(), 512, 512, count);
    } else {
      RingSectors();
      RingingIs();
      RingScanned(count);
      RecordRead(Ring(), 512, 512, count, records, Ringing());
      RingChain(count + 1, records - 1);
    }
  }

  // The chain of this disk comes back to its only record at once, and yet every walk ends:
  // each time round there is a report, until the callback has had enough.
  lemma RingEnds(given: Data)
    requires Asked(given)
    ensures Repeats(Ring(), 512, 512) && EndsWithin(Ring(), 512, 0, given, Quota(given))
  {
    hide Ring, Linking, TableOk, BootTable, Entries, ExtendedTable, ReadAt, Chain, List, Fed, Repeats, Quota, Asked, Numbered;
    var n := Quota(given);
    RingSectors();
    LinkingIs(1);
    RingChain(0, n);
    RingChain(0, STARTS + 1);
    EndsExactly(Ring(), 512, 512, 0);
    var es := Entries(BootTable(Linking(1)));
    UnfinishedFirst(Ring(), es, 1, n);
    ListNumbered(Ring(), 512, 0, es, 0, n);
    FedStops(given, List(Ring(), 512, 0, es, 0, n).all);
  }

  // A disk with two linked extended records, in sectors 1 and 3, each with a partition in the
  // sector behind it.
  function Twin(): Disk {
    Disk(Linking(1) + (FirstOfTwo() + (seq(DEFAULT_SECTOR, _ => 0) + SecondOfTwo())), {})
  }

  function FirstOfTwo(): (s: seq<Byte>)
    ensures |s| == DEFAULT_SECTOR
  {
    TableSector(Slot(7, 1), Slot(5, 2), Slot(0, 0), Slot(0, 0))
  }

  function SecondOfTwo(): (s: seq<Byte>)
    ensures |s| == DEFAULT_SECTOR
  {
    TableSector(Slot(7, 1), Slot(0, 0), Slot(0, 0), Slot(0, 0))
  }

  lemma TwinSectors()
    ensures ReadAt(Twin(), 0, 512) == Read(Linking(1))
    ensures ReadAt(Twin(), 512, 512) == Read(FirstOfTwo()) && ReadAt(Twin(), 1536, 512) == Read(SecondOfTwo())
  {
    hide Linking, FirstOfTwo, SecondOfTwo;
    var b := Twin().bytes;
    assert b[0..512] == Linking(1) && b[512..1024] == FirstOfTwo() && b[1536..2048] == SecondOfTwo();
  }

  lemma TwinTables()
    ensures var sector := FirstOfTwo();
            && ExtendedTable(sector) == BootTable(sector) && TableOk(BootTable(sector))
            && Entries(BootTable(sector)) == [SlotEntry(7, 1), SlotEntry(5, 2), SlotEntry(0, 0), SlotEntry(0, 0)]
    ensures var sector := SecondOfTwo();
            && ExtendedTable(sector) == BootTable(sector) && TableOk(BootTable(sector))
            && Entries(BootTable(sector)) == [SlotEntry(7, 1), SlotEntry(0, 0), SlotEntry(0, 0), SlotEntry(0, 0)]
    ensures Entries(BootTable(Linking(1))) == [SlotEntry(5, 1), SlotEntry(0, 0), SlotEntry(0, 0), SlotEntry(0, 0)]
  {
    hide TableOk, BootTable, Entries, ExtendedTable, Slot;
    SectorTable(7, 1, 5, 2, 0, 0, 0, 0);
    SectorTable(7, 1, 0, 0, 0, 0, 0, 0);
    SectorTable(5, 1, 0, 0, 0, 0, 0, 0);
  }

  lemma TwinScanned()
    ensures var es := [SlotEntry(7, 1), SlotEntry(5, 2), SlotEntry(0, 0), SlotEntry(0, 0)];
            Scan(512, 512, es, 0) == Scanned([Info(1024, 0, 1, 1, 7, false)], Next(2))
    ensures var es := [SlotEntry(7, 1), SlotEntry(0, 0), SlotEntry(0, 0), SlotEntry(0, 0)];
            Scan(512, 1536, es, 1) == Scanned([Info(2048, 0, 1, 2, 7, false)], End)
  {
    var a, c, u := SlotEntry(7, 1), SlotEntry(5, 2), SlotEntry(0, 0);
    assert [a, c, u, u][1..] == [c, u, u];
    assert [a, u, u, u][1..] == [u, u, u];
    UnusedScanned(1536, 2);
  }

  lemma UnusedScanned(base: int, count: nat)
    ensures Scan(512, base, [SlotEntry(0, 0), SlotEntry(0, 0), SlotEntry(0, 0)], count) == Scanned([], End)
  {
    var u := SlotEntry(0, 0);
    assert [u, u, u][1..] == [u, u];
    assert [u, u][1..] == [u];
    assert [u][1..] == [];
  }

  lemma UnusedListed(d: Disk, count: nat, records: nat)
    ensures List(d, 512, 0, [SlotEntry(0, 0), SlotEntry(0, 0), SlotEntry(0, 0)], count, records) == Found([], Complete)
  {
    hide Chain;
    var u := SlotEntry(0, 0);
    assert [u, u, u][1..] == [u, u];
    assert [u, u][1..] == [u];
    assert [u][1..] == [];
  }

  lemma LastRecord(d: Disk, first: int, current: int, count: nat, records: nat, sector: seq<Byte>)
    requires records > 0 && ReadAt(d, current, 512) == Read(sector) && |sector| == 512 && TableOk(ExtendedTable(sector))
    ensures var record := Scan(512, current, Entries(ExtendedTable(sector)), count);
            record.link == End ==> Chain(d, 512, first, current, count, records) == Found(record.found, Complete)
  {
    hide Scan, TableOk, Entries, ReadAt, ExtendedTable;
  }

  // Both partitions are listed where they are, counted from the start of the disk.
  lemma TwinListed(records: nat)
    requires records >= 2
    ensures Partitions(Twin(), 512, 0, records) == Listed([Info(1024, 0, 1, 1, 7, false), Info(2048, 0, 1, 2, 7, false)], Complete)
  {
    hide Twin, Linking, FirstOfTwo, SecondOfTwo, TableOk, BootTable, Entries, ExtendedTable, ReadAt, Chain, List, Scan, SlotEntry;
    TwinSectors();
    TwinTables();
    TwinScanned();
    LinkingIs(1);
    var d := Twin();
    LastRecord(d, 512, 1536, 1, records - 1, SecondOfTwo());
    RecordRead(d, 512, 512, 0, records, FirstOfTwo());
    var a, b := Info(1024, 0, 1, 1, 7, false), Info(2048, 0, 1, 2, 7, false);
    assert Chain(d, 512, 512, 512, 0, records) == Found([a, b], Complete) by {
      assert [a] + [b] == [a, b];
    }
    TwinSlots(d, records, [a, b]);
  }

  lemma TwinSlots(d: Disk, records: nat, all: seq<Info>)
    requires Chain(d, 512, 512, 512, 0, records) == Found(all, Complete)
    ensures List(d, 512, 0, [SlotEntry(5, 1), SlotEntry(0, 0), SlotEntry(0, 0), SlotEntry(0, 0)], 0, records) == Found(all, Complete)
  {
    hide Chain;
    var c, u := SlotEntry(5, 1), SlotEntry(0, 0);
    assert [c, u, u, u][1..] == [u, u, u];
    UnusedListed(d, |all|, records);
    assert all + [] == all;
  }
}
