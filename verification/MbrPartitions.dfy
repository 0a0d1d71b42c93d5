// The two ways in which callers ask for partitions, and the round trip from a built boot
// record back to its partitions.

module MbrPartitions {
  import opened Basics
  import opened Bytes
  import opened Chs
  import opened MbrBuild
  import C = MbrDisks
  import S = MbrStops
  import W = MbrWalk

  const SLOTS: nat := 8
  const NO_PARTITION: W.Info := W.Info(0, 0, 0, 0, 0, false)

  // FscryptDiskGetPartitionInfoIndirect: the partitions in eight cleared slots, if the walk
  // ends. A disk with eight or more partitions makes it return FALSE, although the first
  // eight are there.
  method GetPartitionInfoIndirect(d: W.Disk, sectorSize: nat, offset: int, records: nat)
    returns (ok: bool, error: W.Error, slots: seq<W.Info>, ended: bool)
    requires sectorSize == 0 || sectorSize >= 512
    ensures ended <==> S.EndsWithin(d, sectorSize, offset, W.ForArray([], SLOTS), records)
    ensures |slots| == SLOTS
    ensures var l := W.Partitions(d, sectorSize, offset, records);
            && (!l.Listed? ==> !ok && slots == seq(SLOTS, _ => NO_PARTITION))
            && (l.NoTable? ==> error == W.DiskCorrupt)
            && (l.Listed? ==>
                  var n := Min(SLOTS, |l.all|);
                  && slots[..n] == l.all[..n] && (forall i :: n <= i < SLOTS ==> slots[i] == NO_PARTITION)
                  && (ended ==> (ok <==> l.verdict == W.Complete && |l.all| < SLOTS))
                  && (|l.all| >= SLOTS ==> ended && !ok && error == W.Cancelled))
  {
    hide W.Partitions, W.Fed;
    var data;
    ok, error, data, ended := W.GetPartitionInfoIndirectEx(d, sectorSize, offset, W.ForArray([], SLOTS), records);
    var l := W.Partitions(d, sectorSize, offset, records);
    if l.Listed? {
      S.FedArray([], SLOTS, l.all);
    }
    slots := data.slots + seq(SLOTS - |data.slots|, _ => NO_PARTITION);
  }

  // No boot record, or a read that failed.
  ghost predicate WalkFails(l: W.Listing) {
    !l.Listed? || l.verdict == W.Broken
  }

  // The partition that a request for a number finds: the one at that place, and for number
  // zero the one whose number has come round to zero.
  function Wants(l: W.Listing, number: nat): seq<W.Info> {
    var n := S.Quota(W.ForSingle([], number));
    if l.Listed? && n <= |l.all| then [l.all[n - 1]] else []
  }

  // FscryptDiskGetSinglePartitionInfoIndirect: the partition with a 32-bit number, if the
  // walk ends. It returns TRUE when there is one, and otherwise only for the number zero
  // when the walk fails. So TRUE means that a partition was stored, exactly unless all of
  // that is the case.
  method GetSinglePartitionInfoIndirect(d: W.Disk, sectorSize: nat, offset: int, number: nat, records: nat)
    returns (ok: bool, error: W.Error, found: seq<W.Info>, ended: bool)
    requires (sectorSize == 0 || sectorSize >= 512) && number < W.NUMBERS
    ensures ended <==> S.EndsWithin(d, sectorSize, offset, W.ForSingle([], number), records)
    ensures var l := W.Partitions(d, sectorSize, offset, records);
            && found == Wants(l, number) && (found != [] ==> ended)
            && (ended ==>
                  && (ok <==> found != [] || (number == 0 && WalkFails(l)))
                  && (!ok && !WalkFails(l) ==> error == W.NotFound)
                  && ((ok ==> found != []) <==> number != 0 || !WalkFails(l) || found != []))
  {
    hide W.Partitions, W.Fed;
    var data;
    ok, error, data, ended := W.GetPartitionInfoIndirectEx(d, sectorSize, offset, W.ForSingle([], number), records);
    var l := W.Partitions(d, sectorSize, offset, records);
    if l.Listed? {
      ListingNumbered(d, sectorSize, offset, records);
      S.FedSingle(number, l.all, 0);
    }
    found := data.found;
    if ok {
      return false, W.NotFound, found, ended;
    }
    ok := data.wanted == 0;
  }

  lemma ListingNumbered(d: W.Disk, sectorSize: nat, offset: int, records: nat)
    requires sectorSize == 0 || sectorSize >= 512
    ensures var l := W.Partitions(d, sectorSize, offset, records); l.Listed? ==> W.Numbered(l.all, 0)
  {
    hide W.List, W.Numbered;
    var size := W.SectorSize(sectorSize);
    match W.ReadAt(d, offset, size)
    case Failed =>
    case Read(data) =>
      if |data| == size {
        W.ListNumbered(d, size, offset, W.Entries(W.BootTable(data)), 0, records);
      }
  }

  // A disk with eight partitions: two container entries that lead to the same extended
  // record of four. The walk is complete, so that the eight are all there, and the array
  // request for it returns FALSE.
  function Eight(): W.Disk {
    W.Disk(TwoContainers() + FourPartitions(), {})
  }

  function TwoContainers(): (s: seq<Byte>)
    ensures |s| == MBR_SIZE
  {
    C.TableSector(C.Slot(5, 1), C.Slot(5, 1), C.Slot(0, 0), C.Slot(0, 0))
  }

  function FourPartitions(): (s: seq<Byte>)
    ensures |s| == MBR_SIZE
  {
    C.TableSector(C.Slot(7, 1), C.Slot(7, 2), C.Slot(7, 3), C.Slot(7, 4))
  }

  lemma EightSectors()
    ensures W.ReadAt(Eight(), 0, MBR_SIZE) == W.Read(TwoContainers())
    ensures W.ReadAt(Eight(), MBR_SIZE, MBR_SIZE) == W.Read(FourPartitions())
  {
    hide TwoContainers, FourPartitions;
    var b := Eight().bytes;
    assert b[0..MBR_SIZE] == TwoContainers() && b[MBR_SIZE..2 * MBR_SIZE] == FourPartitions();
  }

  lemma FourScanned(count: nat)
    ensures var es := [C.SlotEntry(7, 1), C.SlotEntry(7, 2), C.SlotEntry(7, 3), C.SlotEntry(7, 4)];
            W.Scan(MBR_SIZE, MBR_SIZE, es, count).link == W.End && |W.Scan(MBR_SIZE, MBR_SIZE, es, count).found| == 4
  {
    var e1, e2, e3, e4 := C.SlotEntry(7, 1), C.SlotEntry(7, 2), C.SlotEntry(7, 3), C.SlotEntry(7, 4);
    assert [e1, e2, e3, e4][1..] == [e2, e3, e4];
    assert [e2, e3, e4][1..] == [e3, e4];
    assert [e3, e4][1..] == [e4];
    assert [e4][1..] == [];
  }

  lemma FourInChain(count: nat, records: nat)
    requires records > 0
    ensures var chain := W.Chain(Eight(), MBR_SIZE, MBR_SIZE, MBR_SIZE, count, records);
            |chain.all| == 4 && chain.verdict == W.Complete
  {
    hide Eight, TwoContainers, FourPartitions, W.ReadAt, W.Scan, W.TableOk, W.Entries, W.ExtendedTable;
    EightSectors();
    FourScanned(count);
    FourIs();
  }

  lemma FourIs()
    ensures var table := W.ExtendedTable(FourPartitions());
            W.TableOk(table) && W.Entries(table) == [C.SlotEntry(7, 1), C.SlotEntry(7, 2), C.SlotEntry(7, 3), C.SlotEntry(7, 4)]
  {
    hide W.TableOk, W.Entries, C.SlotEntry, C.Slot;
    C.SectorTable(7, 1, 7, 2, 7, 3, 7, 4);
  }

  lemma TwoIs()
    ensures var table := W.BootTable(TwoContainers());
            W.TableOk(table) && W.Entries(table) == [C.SlotEntry(5, 1), C.SlotEntry(5, 1), C.SlotEntry(0, 0), C.SlotEntry(0, 0)]
  {
    hide W.TableOk, W.Entries, C.SlotEntry, C.Slot;
    C.SectorTable(5, 1, 5, 1, 0, 0, 0, 0);
  }

  lemma EightListed(records: nat)
    requires records > 0
    ensures var es := [C.SlotEntry(5, 1), C.SlotEntry(5, 1), C.SlotEntry(0, 0), C.SlotEntry(0, 0)];
            var whole := W.List(Eight(), MBR_SIZE, 0, es, 0, records);
            |whole.all| == 8 && whole.verdict == W.Complete
  {
    hide Eight, W.Chain;
    var c, u := C.SlotEntry(5, 1), C.SlotEntry(0, 0);
    FourInChain(0, records);
    FourInChain(4, records);
    UnusedListed(8, records);
    assert [c, c, u, u][1..] == [c, u, u];
    assert [c, u, u][1..] == [u, u];
    var rest := W.List(Eight(), MBR_SIZE, 0, [c, u, u], 4, records);
    assert |rest.all| == 4 && rest.verdict == W.Complete;
  }

  lemma UnusedListed(count: nat, records: nat)
    ensures W.List(Eight(), MBR_SIZE, 0, [C.SlotEntry(0, 0), C.SlotEntry(0, 0)], count, records) == W.Found([], W.Complete)
  {
    hide Eight, W.Chain;
    var u := C.SlotEntry(0, 0);
    assert [u, u][1..] == [u];
    assert [u][1..] == [];
  }

  lemma EightPartitions(records: nat)
    requires records > 0
    ensures var l := W.Partitions(Eight(), MBR_SIZE, 0, records); l.Listed? && l.verdict == W.Complete && |l.all| == SLOTS
  {
    hide Eight, TwoContainers, W.ReadAt, W.List, W.TableOk, W.Entries, W.BootTable;
    EightSectors();
    TwoIs();
    EightListed(records);
  }

  // On an empty disk the walk fails, so the request for number zero returns TRUE.
  lemma EmptyDiskFails(records: nat)
    ensures WalkFails(W.Partitions(W.Disk([], {}), MBR_SIZE, 0, records))
  {
  }

  // The partitions that a boot record can carry faithfully.
  predicate Faithful(p: Partition) {
    && p.start >= 0 && p.start % MBR_SIZE == 0 && p.length >= 0 && p.length % MBR_SIZE == 0
    && p.kind != 0 && !W.Container(p.kind)
  }

  // How the walker reports partition i.
  function Reported(p: Partition, i: nat): W.Info
    requires Faithful(p)
  {
    W.Info(p.start, p.length, p.start / MBR_SIZE, i + 1, p.kind, p.boot)
  }

  function AllReported(ps: seq<Partition>): seq<W.Info>
    requires forall i :: 0 <= i < |ps| ==> Faithful(ps[i])
  {
    seq(|ps|, i requires 0 <= i < |ps| => Reported(ps[i], i))
  }

  lemma EntryFields(g: Geometry, p: Partition)
    requires Usable(g) && g.bytesPerSector > 0 && Storable(g, p)
    ensures var e := EntryBytes(g, p);
            && e[0] == (if p.boot then 0x80 else 0) && e[4] == p.kind
            && FromLittleEndian(e[8..12]) == FirstSector(g, p) && FromLittleEndian(e[12..16]) == SectorCount(g, p)
  {
    hide LittleEndian, FromLittleEndian, LbaToChs, Sectors;
    var e := EntryBytes(g, p);
    assert e[8..12] == LittleEndian(FirstSector(g, p), 4) && e[12..16] == LittleEndian(SectorCount(g, p), 4);
    BoundOfDword();
    LittleEndianRoundTrip(FirstSector(g, p), 4);
    LittleEndianRoundTrip(SectorCount(g, p), 4);
  }

  lemma BoundOfDword()
    ensures Bound(4) == DWORD
  {
    assert Bound(2) == 0x1_0000;
  }

  // The table of a built record, entry by entry.
  lemma TableEntry(g: Geometry, ps: seq<Partition>, table: seq<Byte>, i: nat)
    requires |ps| <= 4 && AllStorable(g, ps) && table == Record(g, ps)[TABLE..] && i < 4
    ensures table[16 * i] % 0x80 == 0 && |table| == W.TABLE_SIZE
    ensures i < |ps| ==> W.EntryAt(table, i) == W.Entry(FirstSector(g, ps[i]), SectorCount(g, ps[i]), ps[i].kind, ps[i].boot)
    ensures i >= |ps| ==> table[16 * i + 4] == 0
  {
    hide EntryBytes, Storable, FromLittleEndian, Record, FirstSector, SectorCount;
    RestEmpty(g, ps);
    if i < |ps| {
      EntryIn(g, ps, i);
      EntryFields(g, ps[i]);
      EntrySlices(Record(g, ps), table, 16 * i, EntryBytes(g, ps[i]));
    }
  }

  lemma EntrySlices(d: seq<Byte>, table: seq<Byte>, at: nat, e: seq<Byte>)
    requires |d| == MBR_SIZE && at + ENTRY <= W.TABLE_SIZE && table == d[TABLE..] && e == d[TABLE + at..TABLE + at + ENTRY]
    ensures table[at] == e[0] && table[at + 4] == e[4]
    ensures table[at + 8..at + 12] == e[8..12] && table[at + 12..at + 16] == e[12..16]
  {
    SubSlice(d, TABLE, MBR_SIZE, at + 8, at + 12);
    SubSlice(d, TABLE, MBR_SIZE, at + 12, at + 16);
    SubSlice(d, TABLE + at, TABLE + at + ENTRY, 8, 12);
    SubSlice(d, TABLE + at, TABLE + at + ENTRY, 12, 16);
    assert d[TABLE..MBR_SIZE] == table;
  }

  lemma RecordTable(g: Geometry, ps: seq<Partition>, table: seq<Byte>)
    requires |ps| <= 4 && AllStorable(g, ps) && table == Record(g, ps)[TABLE..]
    ensures |table| == W.TABLE_SIZE && W.TableOk(table)
    ensures forall i :: 0 <= i < |ps| ==>
              W.Entries(table)[i] == W.Entry(FirstSector(g, ps[i]), SectorCount(g, ps[i]), ps[i].kind, ps[i].boot)
    ensures forall i :: |ps| <= i < 4 ==> W.Entries(table)[i].kind == 0
  {
    hide Record, Storable, FirstSector, SectorCount, FromLittleEndian;
    RestEmpty(g, ps);
    assert table[64] == Record(g, ps)[510] && table[65] == Record(g, ps)[511];
    forall i | 0 <= i < 4
      ensures table[16 * i] % 0x80 == 0
      ensures i < |ps| ==> W.EntryAt(table, i) == W.Entry(FirstSector(g, ps[i]), SectorCount(g, ps[i]), ps[i].kind, ps[i].boot)
      ensures i >= |ps| ==> W.EntryAt(table, i).kind == 0
    {
      TableEntry(g, ps, table, i);
    }
  }

  lemma FaithfulSectors(g: Geometry, p: Partition)
    requires g.bytesPerSector == MBR_SIZE && Faithful(p) && Storable(g, p)
    requires p.start < QWORD && p.length < QWORD
    ensures MBR_SIZE * FirstSector(g, p) == p.start && MBR_SIZE * SectorCount(g, p) == p.length
    ensures FirstSector(g, p) == p.start / MBR_SIZE
  {
  }

  // A list of entries without containers.
  lemma {:induction false} PlainList(d: W.Disk, es: seq<W.Entry>, ps: seq<Partition>, k: nat, records: nat)
    requires |es| == 4 && |ps| <= 4 && k <= 4
    requires forall i :: 0 <= i < |ps| ==> Faithful(ps[i]) && MBR_SIZE * es[i].start == ps[i].start
                                           && MBR_SIZE * es[i].count == ps[i].length && es[i].start == ps[i].start / MBR_SIZE
                                           && es[i].kind == ps[i].kind && es[i].boot == ps[i].boot
    requires forall i :: |ps| <= i < 4 ==> es[i].kind == 0
    ensures W.List(d, MBR_SIZE, 0, es[k..], Min(k, |ps|), records)
         == W.Found(AllReported(ps)[Min(k, |ps|)..], W.Complete)
    decreases 4 - k
  {
    if k < 4 {
      assert es[k..][0] == es[k] && es[k..][1..] == es[k + 1..];
      PlainList(d, es, ps, k + 1, records);
      if k < |ps| {
        assert Faithful(ps[k]) && W.Report(MBR_SIZE, 0, es[k], k + 1) == Reported(ps[k], k);
        assert AllReported(ps)[k..] == [Reported(ps[k], k)] + AllReported(ps)[k + 1..];
      } else {
        assert es[k].kind == 0;
      }
    } else {
      assert es[k..] == [] && AllReported(ps)[|ps|..] == [];
    }
  }

  // What was built is what is found: up to four sector-aligned partitions that are not
  // containers come back with the same start, length, type, boot flag and number,
  // whatever follows the boot record on the disk.
  lemma BuildThenWalk(g: Geometry, ps: seq<Partition>, rest: seq<Byte>, records: nat)
    requires g.bytesPerSector == MBR_SIZE && Usable(g) && |ps| <= 4
    requires forall i :: 0 <= i < |ps| ==>
               Faithful(ps[i]) && ps[i].start < QWORD && ps[i].length < QWORD && Storable(g, ps[i])
    ensures W.Partitions(W.Disk(Record(g, ps) + rest, {}), MBR_SIZE, 0, records) == W.Listed(AllReported(ps), W.Complete)
  {
    hide Storable, W.List, Record, W.TableOk, W.Entries, FirstSector, SectorCount;
    var d := W.Disk(Record(g, ps) + rest, {});
    var table := Record(g, ps)[TABLE..];
    RecordTable(g, ps, table);
    assert (Record(g, ps) + rest)[0..MBR_SIZE] == Record(g, ps);
    assert Record(g, ps)[TABLE..TABLE + W.TABLE_SIZE] == table;
    var es := W.Entries(table);
    forall i | 0 <= i < |ps|
      ensures MBR_SIZE * es[i].start == ps[i].start && MBR_SIZE * es[i].count == ps[i].length
      ensures es[i].start == ps[i].start / MBR_SIZE
    {
      FaithfulSectors(g, ps[i]);
    }
    PlainList(d, es, ps, 0, records);
    assert es[0..] == es && AllReported(ps)[0..] == AllReported(ps);
  }

  // Nothing that the chain reports is unused or a container.
  predicate Proper(ps: seq<W.Info>) {
    forall i :: 0 <= i < |ps| ==> ps[i].kind != 0 && !W.Container(ps[i].kind)
  }

  lemma {:induction false} ScanProper(size: nat, base: int, es: seq<W.Entry>, count: nat)
    ensures Proper(W.Scan(size, base, es, count).found)
    decreases es
  {
    if es != [] {
      ScanProper(size, base, es[1..], count);
      ScanProper(size, base, es[1..], count + 1);
    }
  }

  lemma {:induction false} ChainProper(d: W.Disk, size: nat, first: int, current: int, count: nat, records: nat)
    requires size >= 512
    ensures Proper(W.Chain(d, size, first, current, count, records).all)
    decreases records
  {
    hide W.Scan, W.TableOk, W.Entries, W.ReadAt;
    if records > 0 {
      match W.ReadAt(d, current, size)
      case Failed =>
      case Read(data) =>
        if |data| == size && W.TableOk(W.ExtendedTable(data)) {
          var es := W.Entries(W.ExtendedTable(data));
          ScanProper(size, current, es, count);
          var record := W.Scan(size, current, es, count);
          if record.link.Next? {
            ChainProper(d, size, first, first + size * record.link.start, count + |record.found|, records - 1);
          }
        }
    }
  }

  lemma ProperAppend(ps: seq<W.Info>, qs: seq<W.Info>)
    ensures Proper(ps) && Proper(qs) ==> Proper(ps + qs)
    ensures Proper([])
  {
  }

  lemma ProperHead(p: W.Info, ps: seq<W.Info>)
    ensures p.kind != 0 && !W.Container(p.kind) && Proper(ps) ==> Proper([p] + ps)
  {
  }

  lemma {:induction false} ListProper(d: W.Disk, size: nat, offset: int, es: seq<W.Entry>, count: nat, records: nat)
    requires size >= 512
    ensures Proper(W.List(d, size, offset, es, count, records).all)
    decreases es
  {
    hide W.Chain, Proper;
    ProperAppend([], []);
    if es != [] {
      var at := offset + size * es[0].start;
      ChainProper(d, size, at, at, count, records);
      var found := W.Chain(d, size, at, at, count, records).all;
      ListProper(d, size, offset, es[1..], count + |found|, records);
      ListProper(d, size, offset, es[1..], count, records);
      ListProper(d, size, offset, es[1..], count + 1, records);
      ProperAppend(found, W.List(d, size, offset, es[1..], count + |found|, records).all);
      ProperHead(W.Report(size, 0, es[0], count + 1), W.List(d, size, offset, es[1..], count + 1, records).all);
    }
  }

  // The first report of a list whose first entry is an ordinary partition.
  lemma FirstReport(d: W.Disk, es: seq<W.Entry>, records: nat)
    requires es != [] && es[0].kind != 0 && !W.Container(es[0].kind)
    ensures var all := W.List(d, MBR_SIZE, 0, es, 0, records).all; all != [] && all[0] == W.Report(MBR_SIZE, 0, es[0], 1)
  {
  }

  function Wanted(p: Partition): W.Info {
    W.Info(p.start, p.length, if p.start >= 0 then p.start / MBR_SIZE else 0, 1, p.kind, p.boot)
  }

  // For a single partition that can be stored the round trip holds if and only if it is
  // sector-aligned, not negative, and neither unused nor a container.
  lemma RoundTripExactly(g: Geometry, p: Partition, rest: seq<Byte>, records: nat)
    requires g.bytesPerSector == MBR_SIZE && Usable(g) && Storable(g, p)
    requires p.start < QWORD && p.length < QWORD
    ensures W.Partitions(W.Disk(Record(g, [p]) + rest, {}), MBR_SIZE, 0, records) == W.Listed([Wanted(p)], W.Complete) <==> Faithful(p)
  {
    var d := W.Disk(Record(g, [p]) + rest, {});
    var listing := W.Partitions(d, MBR_SIZE, 0, records);
    if Faithful(p) {
      BuildThenWalk(g, [p], rest, records);
      assert AllReported([p]) == [Wanted(p)];
    } else if listing == W.Listed([Wanted(p)], W.Complete) {
      OnlyFaithful(g, p, d, rest, records);
    }
  }

  lemma OnlyFaithful(g: Geometry, p: Partition, d: W.Disk, rest: seq<Byte>, records: nat)
    requires g.bytesPerSector == MBR_SIZE && Usable(g) && Storable(g, p)
    requires d == W.Disk(Record(g, [p]) + rest, {})
    requires W.Partitions(d, MBR_SIZE, 0, records) == W.Listed([Wanted(p)], W.Complete)
    ensures Faithful(p)
  {
    hide Storable, W.List, Record, W.TableOk, W.Entries, FirstSector, SectorCount;
    var table := Record(g, [p])[TABLE..];
    RecordTable(g, [p], table);
    assert (Record(g, [p]) + rest)[0..MBR_SIZE] == Record(g, [p]);
    assert Record(g, [p])[TABLE..TABLE + W.TABLE_SIZE] == table;
    var es := W.Entries(table);
    assert es[0] == W.Entry(FirstSector(g, p), SectorCount(g, p), p.kind, p.boot);
    ListProper(d, MBR_SIZE, 0, es, 0, records);
    assert [Wanted(p)][0].kind == p.kind;
    FirstReport(d, es, records);
  }
}
