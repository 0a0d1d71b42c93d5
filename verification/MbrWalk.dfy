// The walker over the partitions of a disk: the four entries of the boot record, and the
// chain of extended boot records behind each container entry. It reports every partition
// to a callback, which may stop it.

module MbrWalk {
  import opened Bytes

  const DEFAULT_SECTOR: nat := 512
  const TABLE: nat := 446
  const TABLE_SIZE: nat := 66
  const NUMBERS: nat := 0x1_0000_0000    // partition numbers have 32 bits

  // What the supplied reader gives: a failure at some offsets, else the bytes there, fewer
  // at the end of the disk.
  datatype Disk = Disk(bytes: seq<Byte>, failing: set<int>)

  datatype ReadResult = Failed | Read(data: seq<Byte>)

  function ReadAt(d: Disk, offset: int, size: nat): (r: ReadResult)
    ensures r.Read? ==> |r.data| <= size
  {
    if offset in d.failing then Failed
    else if offset < 0 || offset >= |d.bytes| then Read([])
    else if offset + size <= |d.bytes| then Read(d.bytes[offset..offset + size])
    else Read(d.bytes[offset..])
  }

  datatype Entry = Entry(start: nat, count: nat, kind: nat, boot: bool)

  // PARTITION_INFORMATION as the walker fills it in.
  datatype Info = Info(start: int, length: int, hidden: nat, number: nat, kind: nat, boot: bool)

  datatype Error = NoError | ReadError | DiskCorrupt | Cancelled | NotFound

  predicate Container(kind: nat) {
    kind == 0x05 || kind == 0x0F
  }

  function EntryAt(table: seq<Byte>, i: nat): Entry
    requires |table| == TABLE_SIZE && i < 4
  {
    var at := 16 * i;
    Entry(FromLittleEndian(table[at + 8..at + 12]), FromLittleEndian(table[at + 12..at + 16]), table[at + 4], table[at] >= 0x80)
  }

  // The signature is there and no entry has flags besides the boot indicator.
  predicate TableOk(table: seq<Byte>)
    requires |table| == TABLE_SIZE
  {
    && table[64] == 0x55 && table[65] == 0xAA
    && forall i :: 0 <= i < 4 ==> table[16 * i] % 0x80 == 0
  }

  function Entries(table: seq<Byte>): (es: seq<Entry>)
    requires |table| == TABLE_SIZE
    ensures |es| == 4
  {
    [EntryAt(table, 0), EntryAt(table, 1), EntryAt(table, 2), EntryAt(table, 3)]
  }

  // The table in the boot record stands at a fixed place, that of an extended boot record
  // at the end of the sector.
  function BootTable(sector: seq<Byte>): (table: seq<Byte>)
    requires |sector| >= 512
    ensures |table| == TABLE_SIZE
  {
    sector[TABLE..TABLE + TABLE_SIZE]
  }

  function ExtendedTable(sector: seq<Byte>): (table: seq<Byte>)
    requires |sector| >= 512
    ensures |table| == TABLE_SIZE
  {
    sector[|sector| - TABLE_SIZE..]
  }

  function Report(size: nat, base: int, e: Entry, number: nat): Info {
    Info(base + size * e.start, size * e.count, e.start, number % NUMBERS, e.kind, e.boot)
  }

  // What an extended boot record reports up to its first container entry, and where the
  // next record is, if there is one.
  datatype Link = End | Next(start: nat)

  datatype Scanned = Scanned(found: seq<Info>, link: Link)

  function Scan(size: nat, base: int, es: seq<Entry>, count: nat): Scanned
    decreases es
  {
    if es == [] then Scanned([], End)
    else if es[0].kind == 0 then Scan(size, base, es[1..], count)
    else if Container(es[0].kind) then Scanned([], Next(es[0].start))
    else
      var rest := Scan(size, base, es[1..], count + 1);
      Scanned([Report(size, base, es[0], count + 1)] + rest.found, rest.link)
  }

  // How a listing ends: completely, with a reader that failed, or not within the number of
  // records that were looked at.
  datatype Verdict = Complete | Broken | Unfinished

  datatype Found = Found(all: seq<Info>, verdict: Verdict)

  function Chain(d: Disk, size: nat, first: int, current: int, count: nat, records: nat): Found
    requires size >= 512
    decreases records
  {
    if records == 0 then Found([], Unfinished)
    else match ReadAt(d, current, size)
      case Failed => Found([], Broken)
      case Read(data) =>
        if |data| != size || !TableOk(ExtendedTable(data)) then Found([], Complete)
        else
          var record := Scan(size, current, Entries(ExtendedTable(data)), count);
          match record.link
          case End => Found(record.found, Complete)
          case Next(start) =>
            var rest := Chain(d, size, first, first + size * start, count + |record.found|, records - 1);
            Found(record.found + rest.all, rest.verdict)
  }

  function List(d: Disk, size: nat, offset: int, es: seq<Entry>, count: nat, records: nat): Found
    requires size >= 512
    decreases es
  {
    if es == [] then Found([], Complete)
    else if Container(es[0].kind) then
      var at := offset + size * es[0].start;
      var chain := Chain(d, size, at, at, count, records);
      if chain.verdict != Complete then chain
      else
        var rest := List(d, size, offset, es[1..], count + |chain.all|, records);
        Found(chain.all + rest.all, rest.verdict)
    else if es[0].kind == 0 then List(d, size, offset, es[1..], count, records)
    else
      var rest := List(d, size, offset, es[1..], count + 1, records);
      Found([Report(size, 0, es[0], count + 1)] + rest.all, rest.verdict)
  }

  // The data of the two callbacks: where results go, and a count.
  datatype Data = ForArray(slots: seq<Info>, left: nat) | ForSingle(found: seq<Info>, wanted: nat)

  // The callback's data after a report, and whether to go on.
  datatype Feed = Feed(data: Data, more: bool)

  function Got(data: Data, p: Info): Feed {
    match data
    case ForArray(slots, left) =>
      var left' := if left > 0 then left - 1 else 0xFFFF_FFFF;
      Feed(ForArray(slots + [p], left'), left' > 0)
    case ForSingle(_, wanted) =>
      if p.number == wanted then Feed(ForSingle([p], 0), false) else Feed(data, true)
  }

  // The same after a list of reports, the last of which may have stopped it.
  function Fed(data: Data, ps: seq<Info>): Feed
    decreases |ps|
  {
    if ps == [] then Feed(data, true)
    else
      var next := Got(data, ps[0]);
      if next.more then Fed(next.data, ps[1..]) else next
  }

  lemma FedNone(data: Data)
    ensures Fed(data, []) == Feed(data, true)
  {
  }

  lemma {:induction false} FedAppend(data: Data, ps: seq<Info>, qs: seq<Info>)
    ensures Fed(data, ps + qs) == if Fed(data, ps).more then Fed(Fed(data, ps).data, qs) else Fed(data, ps)
    decreases |ps|
  {
    if ps == [] {
      assert ps + qs == qs;
    } else {
      assert (ps + qs)[0] == ps[0] && (ps + qs)[1..] == ps[1..] + qs;
      if Got(data, ps[0]).more {
        FedAppend(Got(data, ps[0]).data, ps[1..], qs);
      }
    }
  }

  // The numbers of a listing are consecutive, in 32 bits.
  predicate Numbered(ps: seq<Info>, count: nat) {
    forall i :: 0 <= i < |ps| ==> ps[i].number == (count + i + 1) % NUMBERS
  }

  lemma {:induction false} ScanNumbered(size: nat, base: int, es: seq<Entry>, count: nat)
    ensures Numbered(Scan(size, base, es, count).found, count)
    decreases es
  {
    if es != [] {
      ScanNumbered(size, base, es[1..], count);
      ScanNumbered(size, base, es[1..], count + 1);
    }
  }

  lemma {:induction false} ChainNumbered(d: Disk, size: nat, first: int, current: int, count: nat, records: nat)
    requires size >= 512
    ensures Numbered(Chain(d, size, first, current, count, records).all, count)
    decreases records
  {
    hide Scan, TableOk, Entries, ReadAt;
    if records > 0 {
      match ReadAt(d, current, size)
      case Failed =>
      case Read(data) =>
        if |data| == size && TableOk(ExtendedTable(data)) {
          var es := Entries(ExtendedTable(data));
          ScanNumbered(size, current, es, count);
          var record := Scan(size, current, es, count);
          if record.link.Next? {
            ChainNumbered(d, size, first, first + size * record.link.start, count + |record.found|, records - 1);
          }
        }
    }
  }

  lemma {:induction false} ListNumbered(d: Disk, size: nat, offset: int, es: seq<Entry>, count: nat, records: nat)
    requires size >= 512
    ensures Numbered(List(d, size, offset, es, count, records).all, count)
    decreases es
  {
    hide Chain;
    if es != [] {
      var at := offset + size * es[0].start;
      ChainNumbered(d, size, at, at, count, records);
      var found := Chain(d, size, at, at, count, records).all;
      ListNumbered(d, size, offset, es[1..], count + |found|, records);
      ListNumbered(d, size, offset, es[1..], count, records);
      ListNumbered(d, size, offset, es[1..], count + 1, records);
    }
  }

  // A chain that ends within some number of records does not depend on that number.
  lemma {:induction false} EnoughRecords(d: Disk, size: nat, first: int, current: int, count: nat, records: nat, more: nat)
    requires size >= 512 && records <= more
    requires Chain(d, size, first, current, count, records).verdict != Unfinished
    ensures Chain(d, size, first, current, count, more) == Chain(d, size, first, current, count, records)
    decreases records
  {
    hide Scan, TableOk, Entries, ReadAt;
    match ReadAt(d, current, size)
    case Failed =>
    case Read(data) =>
      if |data| == size && TableOk(ExtendedTable(data)) {
        var record := Scan(size, current, Entries(ExtendedTable(data)), count);
        if record.link.Next? {
          EnoughRecords(d, size, first, first + size * record.link.start, count + |record.found|, records - 1, more - 1);
        }
      }
  }

  // One extended boot record: each entry that is used goes to the callback, up to the
  // first container.
  method WalkRecord(size: nat, base: int, es: seq<Entry>, before: nat, given: Data)
    returns (more: bool, link: Link, count: nat, data: Data)
    requires |es| == 4
    ensures var record := Scan(size, base, es, before);
            && Feed(data, more) == Fed(given, record.found)
            && (more ==> link == record.link && count == before + |record.found|)
  {
    ghost var whole := Scan(size, base, es, before);
    link, count, data := End, before, given;
    var e := 0;
    while e < 4
      invariant e <= 4
      invariant Fed(given, whole.found) == Fed(data, Scan(size, base, es[e..], count).found)
      invariant whole.link == Scan(size, base, es[e..], count).link
      invariant before + |whole.found| == count + |Scan(size, base, es[e..], count).found|
    {
      if es[e].kind == 0 {
        e := e + 1;
        continue;
      }
      if Container(es[e].kind) {
        return true, Next(es[e].start), count, data;
      }
      assert es[e..][0] == es[e] && es[e..][1..] == es[e + 1..];
      count := count + 1;
      var next := Got(data, Report(size, base, es[e], count));
      data, more := next.data, next.more;
      if !more {
        return false, End, count, data;
      }
      e := e + 1;
    }
    more := true;
  }

  // What one record of a chain means for the callback.
  lemma ChainStep(d: Disk, size: nat, first: int, current: int, count: nat, records: nat, sector: seq<Byte>, data: Data)
    requires size >= 512 && records > 0 && ReadAt(d, current, size) == Read(sector)
    requires |sector| == size && TableOk(ExtendedTable(sector))
    ensures var record := Scan(size, current, Entries(ExtendedTable(sector)), count);
            var chain := Chain(d, size, first, current, count, records);
            && (!Fed(data, record.found).more ==> Fed(data, chain.all) == Fed(data, record.found))
            && (record.link == End ==> chain == Found(record.found, Complete))
            && (record.link.Next? && Fed(data, record.found).more ==>
                  var rest := Chain(d, size, first, first + size * record.link.start, count + |record.found|, records - 1);
                  && Fed(data, chain.all) == Fed(Fed(data, record.found).data, rest.all)
                  && chain.verdict == rest.verdict && |chain.all| == |record.found| + |rest.all|)
  {
    hide Scan, TableOk, Entries, ReadAt, Fed;
    var record := Scan(size, current, Entries(ExtendedTable(sector)), count);
    if record.link.Next? {
      FedAppend(data, record.found,
                Chain(d, size, first, first + size * record.link.start, count + |record.found|, records - 1).all);
    }
  }

  // The chain of extended boot records behind a container entry.
  method WalkChain(d: Disk, size: nat, first: int, before: nat, given: Data, records: nat)
    returns (more: bool, verdict: Verdict, count: nat, data: Data)
    requires size >= 512
    ensures var chain := Chain(d, size, first, first, before, records);
            && Feed(data, more) == Fed(given, chain.all)
            && (more ==> verdict == chain.verdict && count == before + |chain.all|)
  {
    hide Scan, TableOk, Entries, ReadAt, Fed;
    ghost var whole := Chain(d, size, first, first, before, records);
    verdict, count, data := Unfinished, before, given;
    var current, left, readNext := first, records, true;
    while readNext && left > 0
      invariant readNext ==>
                  var rest := Chain(d, size, first, current, count, left);
                  && Fed(given, whole.all) == Fed(data, rest.all)
                  && whole.verdict == rest.verdict && before + |whole.all| == count + |rest.all|
      invariant !readNext ==>
                  Fed(given, whole.all) == Feed(data, true) && whole.verdict == verdict && before + |whole.all| == count
      invariant readNext ==> verdict == Unfinished
      decreases left, readNext
    {
      FedNone(data);
      readNext := false;
      match ReadAt(d, current, size) {
        case Failed =>
          return true, Broken, count, data;
        case Read(sector) =>
          if |sector| != size || !TableOk(ExtendedTable(sector)) {
            return true, Complete, count, data;
          }
          ghost var had, so := data, count;
          var link;
          more, link, count, data := WalkRecord(size, current, Entries(ExtendedTable(sector)), count, data);
          ChainStep(d, size, first, current, so, left, sector, had);
          if !more {
            return false, Complete, count, data;
          }
          if link.Next? {
            current, readNext := first + size * link.start, true;
          } else {
            verdict := Complete;
          }
      }
      left := left - 1;
    }
    FedNone(data);
    more := true;
  }

  // The entries of the boot record in their order.
  method WalkTable(d: Disk, size: nat, offset: int, es: seq<Entry>, given: Data, records: nat)
    returns (more: bool, verdict: Verdict, data: Data)
    requires size >= 512 && |es| == 4
    ensures var whole := List(d, size, offset, es, 0, records);
            Feed(data, more) == Fed(given, whole.all) && (more ==> verdict == whole.verdict)
  {
    hide Chain;
    ghost var whole := List(d, size, offset, es, 0, records);
    data := given;
    var count, i := 0, 0;
    while i < 4
      invariant i <= 4
      invariant Fed(given, whole.all) == Fed(data, List(d, size, offset, es[i..], count, records).all)
      invariant whole.verdict == List(d, size, offset, es[i..], count, records).verdict
    {
      ghost var todo := es[i..];
      assert todo[0] == es[i] && todo[1..] == es[i + 1..];
      if Container(es[i].kind) {
        var at := offset + size * es[i].start;
        ghost var had, so := data, count;
        more, verdict, count, data := WalkChain(d, size, at, count, data, records);
        ListStep(d, size, offset, todo, so, records, had);
        if !more || verdict != Complete {
          return more, verdict, data;
        }
      } else if es[i].kind != 0 {
        count := count + 1;
        var next := Got(data, Report(size, 0, es[i], count));
        data, more := next.data, next.more;
        if !more {
          return false, Complete, data;
        }
      }
      i := i + 1;
    }
    more, verdict := true, Complete;
  }

  // What a container entry means for the callback.
  lemma ListStep(d: Disk, size: nat, offset: int, es: seq<Entry>, count: nat, records: nat, data: Data)
    requires size >= 512 && es != [] && Container(es[0].kind)
    ensures var at := offset + size * es[0].start;
            var chain := Chain(d, size, at, at, count, records);
            var whole := List(d, size, offset, es, count, records);
            && (!Fed(data, chain.all).more ==> Fed(data, whole.all) == Fed(data, chain.all))
            && (chain.verdict != Complete ==> whole == chain)
            && (chain.verdict == Complete && Fed(data, chain.all).more ==>
                  var rest := List(d, size, offset, es[1..], count + |chain.all|, records);
                  Fed(data, whole.all) == Fed(Fed(data, chain.all).data, rest.all) && whole.verdict == rest.verdict)
  {
    hide Chain, Fed;
    var at := offset + size * es[0].start;
    var chain := Chain(d, size, at, at, count, records);
    FedAppend(data, chain.all, List(d, size, offset, es[1..], count + |chain.all|, records).all);
  }

  function SectorSize(size: nat): nat {
    if size == 0 then DEFAULT_SECTOR else size
  }

  // What the boot record at an offset lists, if there is one.
  datatype Listing = Unread | NoTable | Listed(all: seq<Info>, verdict: Verdict)

  function Partitions(d: Disk, sectorSize: nat, offset: int, records: nat): Listing
    requires sectorSize == 0 || sectorSize >= 512
  {
    var size := SectorSize(sectorSize);
    match ReadAt(d, offset, size)
    case Failed => Unread
    case Read(data) =>
      if |data| != size || !TableOk(BootTable(data)) then NoTable
      else var whole := List(d, size, offset, Entries(BootTable(data)), 0, records); Listed(whole.all, whole.verdict)
  }

  // FscryptDiskGetPartitionInfoIndirectEx, looking at no more than a number of extended
  // boot records behind each container. Every listed partition goes to the callback once,
  // in order, until it stops the walk.
  method GetPartitionInfoIndirectEx(d: Disk, sectorSize: nat, offset: int, given: Data, records: nat)
    returns (ok: bool, error: Error, data: Data, ended: bool)
    requires sectorSize == 0 || sectorSize >= 512
    ensures var l := Partitions(d, sectorSize, offset, records);
            && (l.Unread? ==> !ok && error == ReadError && data == given && ended)
            && (l.NoTable? ==> !ok && error == DiskCorrupt && data == given && ended)
            && (l.Listed? ==> data == Fed(given, l.all).data)
            && (l.Listed? && !Fed(given, l.all).more ==> !ok && error == Cancelled && ended)
            && (l.Listed? && Fed(given, l.all).more ==>
                  && (ok <==> l.verdict == Complete) && (ended <==> l.verdict != Unfinished)
                  && error == if l.verdict == Complete then NoError else ReadError)
  {
    hide List, Fed, Entries, TableOk, ReadAt;
    var size := SectorSize(sectorSize);
    match ReadAt(d, offset, size)
    case Failed => return false, ReadError, given, true;
    case Read(sector) =>
      if |sector| != size || !TableOk(BootTable(sector)) {
        return false, DiskCorrupt, given, true;
      }
      var more, verdict;
      more, verdict, data := WalkTable(d, size, offset, Entries(BootTable(sector)), given, records);
      if !more {
        return false, Cancelled, data, true;
      }
      return verdict == Complete, if verdict == Complete then NoError else ReadError, data, verdict != Unfinished;
  }
}
