// When the walk over the partitions ends, with a callback that stops it after some number
// of reports.

module MbrStops {
  import opened Basics
  import opened MbrWalk
  import opened MbrChains

  // One more record than there are sector numbers visits every record of a chain.
  const ROUND: nat := STARTS + 1

  function Rounds(n: nat): nat {
    n * ROUND
  }

  // The report at which the callback stops the walk. A count of zero wraps, and the number
  // zero comes up after all the others.
  function Quota(given: Data): (n: nat)
    ensures n > 0
  {
    match given
    case ForArray(_, left) => if left == 0 then NUMBERS else left
    case ForSingle(_, wanted) => if wanted == 0 then NUMBERS else wanted
  }

  // What a caller asks for: a 32-bit count or number, and no result yet.
  predicate Asked(given: Data) {
    match given
    case ForArray(slots, left) => slots == [] && left < NUMBERS
    case ForSingle(found, wanted) => found == [] && wanted < NUMBERS
  }

  // The callback for an array stops when its slots are used up.
  lemma {:induction false} FedArray(slots: seq<Info>, left: nat, ps: seq<Info>)
    requires left > 0
    ensures Fed(ForArray(slots, left), ps)
         == Feed(ForArray(slots + ps[..Min(left, |ps|)], left - Min(left, |ps|)), |ps| < left)
    decreases |ps|
  {
    if ps == [] {
      assert slots + ps[..0] == slots;
    } else if left == 1 {
      assert slots + ps[..1] == slots + [ps[0]];
    } else {
      FedArray(slots + [ps[0]], left - 1, ps[1..]);
      assert slots + [ps[0]] + ps[1..][..Min(left - 1, |ps| - 1)] == slots + ps[..Min(left, |ps|)];
    }
  }

  // The callback for one partition takes the one with its number.
  lemma {:induction false} FedSingle(wanted: nat, ps: seq<Info>, count: nat)
    requires wanted < NUMBERS && Numbered(ps, count) && count < Quota(ForSingle([], wanted))
    ensures var n := Quota(ForSingle([], wanted));
            Fed(ForSingle([], wanted), ps) ==
              if n <= count + |ps| then Feed(ForSingle([ps[n - count - 1]], 0), false) else Feed(ForSingle([], wanted), true)
    decreases |ps|
  {
    if ps != [] {
      NumberIs(wanted, count + 1);
      if wanted != ps[0].number {
        FedSingle(wanted, ps[1..], count + 1);
      }
    }
  }

  lemma NumberIs(wanted: nat, k: nat)
    requires wanted < NUMBERS && 1 <= k <= Quota(ForSingle([], wanted))
    ensures k % NUMBERS == wanted <==> k == Quota(ForSingle([], wanted))
  {
  }

  // Either callback stops exactly at its quota.
  lemma FedStops(given: Data, ps: seq<Info>)
    requires Asked(given) && Numbered(ps, 0)
    ensures Fed(given, ps).more <==> |ps| < Quota(given)
  {
    match given
    case ForSingle(_, wanted) => FedSingle(wanted, ps, 0);
    case ForArray(_, left) =>
      if left > 0 {
        FedArray([], left, ps);
      } else if ps != [] {
        assert given.slots + [ps[0]] == [ps[0]];
        FedArray([ps[0]], NUMBERS - 1, ps[1..]);
      }
  }

  // What follows a report that stopped the callback makes no difference.
  lemma FedPrefix(given: Data, ps: seq<Info>, qs: seq<Info>)
    requires ps <= qs && !Fed(given, ps).more
    ensures Fed(given, qs) == Fed(given, ps)
  {
    hide Fed;
    assert qs == ps + qs[|ps|..];
    FedAppend(given, ps, qs[|ps|..]);
  }

  // How many partitions the record at an offset reports.
  function ReportsAt(d: Disk, size: nat, current: int): nat
    requires size >= 512
  {
    match ReadAt(d, current, size)
    case Failed => 0
    case Read(data) =>
      if |data| != size || !TableOk(ExtendedTable(data)) then 0
      else |Scan(size, current, Entries(ExtendedTable(data)), 0).found|
  }

  // And the first records of a chain together.
  function ReportsFrom(d: Disk, size: nat, first: int, current: int, records: nat): nat
    requires size >= 512
    decreases records
  {
    if records == 0 then 0
    else
      ReportsAt(d, size, current) + match Successor(d, size, first, current)
                                    case None => 0
                                    case Some(next) => ReportsFrom(d, size, first, next, records - 1)
  }

  lemma {:induction false} ScanCount(size: nat, base: int, es: seq<Entry>, count: nat, other: nat)
    ensures |Scan(size, base, es, count).found| == |Scan(size, base, es, other).found|
    decreases es
  {
    if es != [] {
      ScanCount(size, base, es[1..], count, other);
      ScanCount(size, base, es[1..], count + 1, other + 1);
    }
  }

  lemma {:induction false} ChainReports(d: Disk, size: nat, first: int, current: int, count: nat, records: nat)
    requires size >= 512
    ensures |Chain(d, size, first, current, count, records).all| == ReportsFrom(d, size, first, current, records)
    decreases records
  {
    hide Scan, TableOk, Entries, ReadAt, LinkOf;
    if records > 0 {
      match ReadAt(d, current, size)
      case Failed =>
      case Read(data) =>
        if |data| == size && TableOk(ExtendedTable(data)) {
          var es := Entries(ExtendedTable(data));
          ScanLink(size, current, es, count);
          ScanCount(size, current, es, count, 0);
          var record := Scan(size, current, es, count);
          if record.link.Next? {
            ChainReports(d, size, first, first + size * record.link.start, count + |record.found|, records - 1);
          }
        }
    }
  }

  lemma {:induction false} ReportsOn(d: Disk, size: nat, first: int, current: int, k: nat, more: nat)
    requires size >= 512
    ensures ReportsFrom(d, size, first, current, k + more)
         == ReportsFrom(d, size, first, current, k) + match VisitedFrom(d, size, first, current, k)
                                                      case None => 0
                                                      case Some(next) => ReportsFrom(d, size, first, next, more)
    decreases k
  {
    hide Successor, ReportsAt;
    if k > 0 {
      var next := Successor(d, size, first, current);
      if next.Some? {
        ReportsOn(d, size, first, next.value, k - 1, more);
      }
    }
  }

  // The record that is visited k records after the current one reports nothing.
  predicate SilentFrom(d: Disk, size: nat, first: int, current: int, k: nat)
    requires size >= 512
  {
    var at := VisitedFrom(d, size, first, current, k);
    at.Some? ==> ReportsAt(d, size, at.value) == 0
  }

  predicate Silent(d: Disk, size: nat, first: int, k: nat)
    requires size >= 512
  {
    SilentFrom(d, size, first, first, k)
  }

  lemma {:induction false} SilentReports(d: Disk, size: nat, first: int, current: int, records: nat)
    requires size >= 512
    ensures ReportsFrom(d, size, first, current, records) == 0 <==>
              forall k :: 0 <= k < records ==> SilentFrom(d, size, first, current, k)
    decreases records
  {
    hide Successor, ReportsAt;
    if records > 0 {
      assert SilentFrom(d, size, first, current, 0) <==> ReportsAt(d, size, current) == 0;
      var next := Successor(d, size, first, current);
      forall k | 0 < k < records
        ensures SilentFrom(d, size, first, current, k) <==> next.None? || SilentFrom(d, size, first, next.value, k - 1)
      {
      }
      if next.Some? {
        SilentReports(d, size, first, next.value, records - 1);
        forall k | 0 <= k < records - 1
          ensures SilentFrom(d, size, first, next.value, k) <==> SilentFrom(d, size, first, current, k + 1)
        {
        }
      }
    }
  }

  // A chain that goes round for ever and reports nothing on the way round.
  ghost predicate SilentCycle(d: Disk, size: nat, first: int)
    requires size >= 512
  {
    exists i: nat, j: nat :: Cycle(d, size, first, i, j) && forall k: nat :: i <= k < j ==> Silent(d, size, first, k)
  }

  predicate Cycle(d: Disk, size: nat, first: int, i: nat, j: nat)
    requires size >= 512
  {
    i < j && Visited(d, size, first, i).Some? && Visited(d, size, first, i) == Visited(d, size, first, j)
  }

  lemma Around(d: Disk, size: nat, first: int, i: nat, j: nat, k: nat)
    requires size >= 512 && Cycle(d, size, first, i, j) && k >= i
    ensures Visited(d, size, first, k) == Visited(d, size, first, k + (j - i))
  {
    hide Successor;
    VisitedOn(d, size, first, first, i, k - i);
    VisitedOn(d, size, first, first, j, k - i);
  }

  // On a silent cycle nothing is reported any more,
  lemma {:induction false} SilentOn(d: Disk, size: nat, first: int, i: nat, j: nat, k: nat)
    requires size >= 512 && Cycle(d, size, first, i, j) && k >= i
    requires forall m :: i <= m < j ==> Silent(d, size, first, m)
    ensures Silent(d, size, first, k)
    decreases k
  {
    hide ReportsAt, VisitedFrom;
    if k >= j {
      Around(d, size, first, i, j, k - (j - i));
      SilentOn(d, size, first, i, j, k - (j - i));
    }
  }

  // from whatever point on the chain goes round.
  lemma {:induction false} SilentBefore(d: Disk, size: nat, first: int, i: nat, j: nat, a: nat, b: nat, k: nat)
    requires size >= 512 && Cycle(d, size, first, i, j) && Cycle(d, size, first, a, b) && k >= a
    requires forall m :: i <= m < j ==> Silent(d, size, first, m)
    ensures Silent(d, size, first, k)
    decreases if k < i then i - k else 0
  {
    hide ReportsAt, VisitedFrom;
    if k >= i {
      SilentOn(d, size, first, i, j, k);
    } else {
      Around(d, size, first, a, b, k);
      SilentBefore(d, size, first, i, j, a, b, k + (b - a));
    }
  }

  lemma MoreReports(d: Disk, size: nat, first: int, records: nat, more: nat)
    requires size >= 512 && records <= more
    ensures ReportsFrom(d, size, first, first, records) <= ReportsFrom(d, size, first, first, more)
  {
    hide ReportsFrom, VisitedFrom;
    ReportsOn(d, size, first, first, records, more - records);
  }

  // A chain that comes to be silent has reported everything in one round.
  lemma SilentAfterRound(d: Disk, size: nat, first: int, records: nat)
    requires size >= 512 && SilentCycle(d, size, first) && records >= ROUND
    ensures ReportsFrom(d, size, first, first, records) == ReportsFrom(d, size, first, first, ROUND)
  {
    hide ReportsFrom, ReportsAt, VisitedFrom, Silent;
    var i: nat, j: nat :| Cycle(d, size, first, i, j) && forall k: nat :: i <= k < j ==> Silent(d, size, first, k);
    RoundForEver(d, size, first, i, j, ROUND);
    var a, b := ManyRepeat(d, size, first, first);
    var next := Visited(d, size, first, ROUND).value;
    forall k | 0 <= k < records - ROUND ensures SilentFrom(d, size, first, next, k) {
      SilentBefore(d, size, first, i, j, a, b, ROUND + k);
      SilentShifted(d, size, first, ROUND, k);
    }
    SilentReports(d, size, first, next, records - ROUND);
    ReportsOn(d, size, first, first, ROUND, records - ROUND);
  }

  lemma SilentShifted(d: Disk, size: nat, first: int, p: nat, k: nat)
    requires size >= 512 && Visited(d, size, first, p).Some?
    ensures Silent(d, size, first, p + k) <==> SilentFrom(d, size, first, Visited(d, size, first, p).value, k)
  {
    hide ReportsAt, Successor;
    VisitedOn(d, size, first, first, p, k);
  }

  // A round without a report, anywhere in an endless chain, holds a silent cycle.
  lemma SilentRound(d: Disk, size: nat, first: int, p: nat)
    requires size >= 512 && Visited(d, size, first, p).Some? && Visited(d, size, first, p + ROUND).Some?
    requires ReportsFrom(d, size, first, Visited(d, size, first, p).value, ROUND) == 0
    ensures SilentCycle(d, size, first)
  {
    hide ReportsFrom, ReportsAt, VisitedFrom, Silent, SilentFrom;
    var current := Visited(d, size, first, p).value;
    VisitedOn(d, size, first, first, p, ROUND);
    var i, j := ManyRepeat(d, size, first, current);
    VisitedOn(d, size, first, first, p, i);
    VisitedOn(d, size, first, first, p, j);
    SilentReports(d, size, first, current, ROUND);
    forall k | p + i <= k < p + j ensures Silent(d, size, first, k) {
      SilentShifted(d, size, first, p, k - p);
    }
    assert Cycle(d, size, first, p + i, p + j);
  }

  // An endless chain without a silent cycle reports something in every round.
  lemma {:induction false} RoundsReport(d: Disk, size: nat, first: int, n: nat)
    requires size >= 512 && Repeats(d, size, first) && !SilentCycle(d, size, first)
    ensures ReportsFrom(d, size, first, first, Rounds(n)) >= n
    decreases n
  {
    hide ReportsFrom, SilentCycle, VisitedFrom;
    if n > 0 {
      var p := Rounds(n - 1);
      var i, j :| i < j && Visited(d, size, first, i).Some? && Visited(d, size, first, i) == Visited(d, size, first, j);
      RoundForEver(d, size, first, i, j, p);
      RoundForEver(d, size, first, i, j, p + ROUND);
      RoundsReport(d, size, first, n - 1);
      ReportsOn(d, size, first, first, p, ROUND);
      if ReportsFrom(d, size, first, Visited(d, size, first, p).value, ROUND) == 0 {
        SilentRound(d, size, first, p);
      }
    }
  }

  // The chain with which a listing stops being complete: where it starts, and the number of
  // reports before it.
  datatype Open = Open(at: int, before: nat)

  function FirstOpen(d: Disk, size: nat, offset: int, es: seq<Entry>, count: nat): Option<Open>
    requires size >= 512
    decreases es
  {
    if es == [] then None
    else if Container(es[0].kind) then
      var at := offset + size * es[0].start;
      var chain := Chain(d, size, at, at, count, ROUND);
      if chain.verdict == Complete then FirstOpen(d, size, offset, es[1..], count + |chain.all|) else Some(Open(at, count))
    else FirstOpen(d, size, offset, es[1..], if es[0].kind == 0 then count else count + 1)
  }

  // What a listing is, once every chain before that one has been read to its end.
  predicate OpenListing(d: Disk, size: nat, open: Option<Open>, whole: Found, count: nat, records: nat)
    requires size >= 512
  {
    match open
    case None => whole.verdict == Complete
    case Some(Open(at, before)) =>
      var chain := Chain(d, size, at, at, before, records);
      whole.verdict == chain.verdict && count + |whole.all| == before + |chain.all|
  }

  lemma {:induction false} OpenListed(d: Disk, size: nat, offset: int, es: seq<Entry>, count: nat, records: nat)
    requires size >= 512 && records >= ROUND
    ensures OpenListing(d, size, FirstOpen(d, size, offset, es, count), List(d, size, offset, es, count, records), count, records)
    decreases es
  {
    hide Chain;
    if es != [] {
      if Container(es[0].kind) {
        var at := offset + size * es[0].start;
        ChainSettles(d, size, at, count, records);
        OpenListed(d, size, offset, es[1..], count + |Chain(d, size, at, at, count, ROUND).all|, records);
      } else {
        OpenListed(d, size, offset, es[1..], if es[0].kind == 0 then count else count + 1, records);
      }
    }
  }

  // The walk with a callback, on no more than a number of records behind each container, has
  // come to its end: nothing to list, a callback that stopped it, or a decided listing.
  predicate EndsWithin(d: Disk, sectorSize: nat, offset: int, given: Data, records: nat)
    requires sectorSize == 0 || sectorSize >= 512
  {
    var l := Partitions(d, sectorSize, offset, records);
    !l.Listed? || !Fed(given, l.all).more || l.verdict != Unfinished
  }

  // A boot record whose first chain that is not complete comes to go round without a report,
  // with fewer than n reports before that.
  ghost predicate Endless(d: Disk, sectorSize: nat, offset: int, n: nat)
    requires sectorSize == 0 || sectorSize >= 512
  {
    var size := SectorSize(sectorSize);
    match ReadAt(d, offset, size)
    case Failed => false
    case Read(data) =>
      |data| == size && TableOk(BootTable(data)) && EndlessFrom(d, size, FirstOpen(d, size, offset, Entries(BootTable(data)), 0), n)
  }

  ghost predicate EndlessFrom(d: Disk, size: nat, open: Option<Open>, n: nat)
    requires size >= 512
  {
    && open.Some? && SilentCycle(d, size, open.value.at)
    && open.value.before + ReportsFrom(d, size, open.value.at, open.value.at, ROUND) < n
  }

  lemma {:induction false} ChainPrefix(d: Disk, size: nat, first: int, current: int, count: nat, records: nat, more: nat)
    requires size >= 512 && records <= more
    ensures Chain(d, size, first, current, count, records).all <= Chain(d, size, first, current, count, more).all
    decreases records
  {
    hide Scan, TableOk, Entries, ReadAt;
    if records > 0 {
      match ReadAt(d, current, size)
      case Failed =>
      case Read(data) =>
        if |data| == size && TableOk(ExtendedTable(data)) {
          var record := Scan(size, current, Entries(ExtendedTable(data)), count);
          if record.link.Next? {
            ChainPrefix(d, size, first, first + size * record.link.start, count + |record.found|, records - 1, more - 1);
          }
        }
    }
  }

  // More records only add to a listing, and nothing to one that is decided.
  predicate Extends(l: Found, m: Found) {
    l.all <= m.all && (l.verdict != Unfinished ==> m == l)
  }

  lemma ChainExtends(d: Disk, size: nat, first: int, count: nat, records: nat, more: nat)
    requires size >= 512 && records <= more
    ensures Extends(Chain(d, size, first, first, count, records), Chain(d, size, first, first, count, more))
  {
    hide Chain;
    ChainPrefix(d, size, first, first, count, records, more);
    if Chain(d, size, first, first, count, records).verdict != Unfinished {
      EnoughRecords(d, size, first, first, count, records, more);
    }
  }

  lemma {:induction false} ListExtends(d: Disk, size: nat, offset: int, es: seq<Entry>, count: nat, records: nat, more: nat)
    requires size >= 512 && records <= more
    ensures Extends(List(d, size, offset, es, count, records), List(d, size, offset, es, count, more))
    decreases es
  {
    hide Chain;
    if es != [] {
      if Container(es[0].kind) {
        var at := offset + size * es[0].start;
        ChainExtends(d, size, at, count, records, more);
        ListExtends(d, size, offset, es[1..], count + |Chain(d, size, at, at, count, records).all|, records, more);
      } else {
        ListExtends(d, size, offset, es[1..], if es[0].kind == 0 then count else count + 1, records, more);
      }
    }
  }

  // Once the walk has come to its end, more records change nothing: not what the callback
  // got, and, if it did not stop the walk, not the listing.
  lemma OutcomeSettles(d: Disk, sectorSize: nat, offset: int, given: Data, records: nat, more: nat)
    requires (sectorSize == 0 || sectorSize >= 512) && records <= more
    requires EndsWithin(d, sectorSize, offset, given, records)
    ensures EndsWithin(d, sectorSize, offset, given, more)
    ensures var l, m := Partitions(d, sectorSize, offset, records), Partitions(d, sectorSize, offset, more);
            if l.Listed? && !Fed(given, l.all).more then m.Listed? && Fed(given, m.all) == Fed(given, l.all) else m == l
  {
    hide List, TableOk, Entries, Fed;
    var size := SectorSize(sectorSize);
    match ReadAt(d, offset, size)
    case Failed =>
    case Read(data) =>
      if |data| == size && TableOk(BootTable(data)) {
        var es := Entries(BootTable(data));
        ListExtends(d, size, offset, es, 0, records, more);
        var l, m := List(d, size, offset, es, 0, records), List(d, size, offset, es, 0, more);
        if !Fed(given, l.all).more {
          FedPrefix(given, l.all, m.all);
        }
      }
  }

  // The listing of a boot record stops the callback, or is decided, within enough records.
  predicate ListEnds(d: Disk, size: nat, offset: int, es: seq<Entry>, given: Data, records: nat)
    requires size >= 512
  {
    var whole := List(d, size, offset, es, 0, records);
    !Fed(given, whole.all).more || whole.verdict != Unfinished
  }

  // With enough records for every chain that ends, that depends on the open chain alone.
  lemma ListEndsExactly(d: Disk, size: nat, offset: int, es: seq<Entry>, given: Data, records: nat)
    requires size >= 512 && records >= ROUND && Asked(given)
    ensures var open, n := FirstOpen(d, size, offset, es, 0), Quota(given);
            ListEnds(d, size, offset, es, given, records) <==>
              open.None? || !Repeats(d, size, open.value.at)
              || open.value.before + ReportsFrom(d, size, open.value.at, open.value.at, records) >= n
  {
    hide List, Chain, FirstOpen, Fed, Repeats, Quota, Asked, ReportsFrom, Numbered;
    var whole := List(d, size, offset, es, 0, records);
    OpenListed(d, size, offset, es, 0, records);
    ListNumbered(d, size, offset, es, 0, records);
    FedStops(given, whole.all);
    match FirstOpen(d, size, offset, es, 0)
    case None =>
    case Some(Open(at, before)) =>
      EndsExactly(d, size, at, before);
      ChainSettles(d, size, at, before, records);
      OpenIsOpen(d, size, offset, es, 0);
      ChainReports(d, size, at, at, before, records);
  }

  lemma {:induction false} OpenIsOpen(d: Disk, size: nat, offset: int, es: seq<Entry>, count: nat)
    requires size >= 512
    ensures var open := FirstOpen(d, size, offset, es, count);
            open.Some? ==> Chain(d, size, open.value.at, open.value.at, open.value.before, ROUND).verdict != Complete
    decreases es
  {
    hide Chain;
    if es != [] {
      if Container(es[0].kind) {
        var at := offset + size * es[0].start;
        OpenIsOpen(d, size, offset, es[1..], count + |Chain(d, size, at, at, count, ROUND).all|);
      } else {
        OpenIsOpen(d, size, offset, es[1..], if es[0].kind == 0 then count else count + 1);
      }
    }
  }

  lemma SilentRepeats(d: Disk, size: nat, first: int)
    requires size >= 512 && SilentCycle(d, size, first)
    ensures Repeats(d, size, first)
  {
    hide Visited, ReportsAt;
    var i: nat, j: nat :| Cycle(d, size, first, i, j) && forall k: nat :: i <= k < j ==> Silent(d, size, first, k);
    assert i < j && Visited(d, size, first, i).Some? && Visited(d, size, first, i) == Visited(d, size, first, j);
  }

  // If the listing ends at all, it does so within a round of records for each report up to
  // the quota,
  lemma EndsInRounds(d: Disk, size: nat, offset: int, es: seq<Entry>, given: Data)
    requires size >= 512 && Asked(given)
    requires !EndlessFrom(d, size, FirstOpen(d, size, offset, es, 0), Quota(given))
    ensures ListEnds(d, size, offset, es, given, Rounds(Quota(given)))
  {
    hide FirstOpen, ListEnds, Repeats, SilentCycle, ReportsFrom, Quota, Asked;
    var n, open := Quota(given), FirstOpen(d, size, offset, es, 0);
    ListEndsExactly(d, size, offset, es, given, Rounds(n));
    if open.Some? && Repeats(d, size, open.value.at) {
      if SilentCycle(d, size, open.value.at) {
        MoreReports(d, size, open.value.at, ROUND, Rounds(n));
      } else {
        RoundsReport(d, size, open.value.at, n);
      }
    }
  }

  // and it does not end if the open chain comes to be silent before the quota.
  lemma NeverEnds(d: Disk, size: nat, offset: int, es: seq<Entry>, given: Data, records: nat)
    requires size >= 512 && Asked(given)
    requires EndlessFrom(d, size, FirstOpen(d, size, offset, es, 0), Quota(given))
    ensures !ListEnds(d, size, offset, es, given, records)
  {
    hide FirstOpen, ListEnds, Repeats, SilentCycle, ReportsFrom, Quota, Asked;
    var open, enough := FirstOpen(d, size, offset, es, 0), Max(records, ROUND);
    SilentRepeats(d, size, open.value.at);
    SilentAfterRound(d, size, open.value.at, enough);
    ListEndsExactly(d, size, offset, es, given, enough);
    ListStillEnds(d, size, offset, es, given, records, enough);
  }

  lemma ListStillEnds(d: Disk, size: nat, offset: int, es: seq<Entry>, given: Data, records: nat, more: nat)
    requires size >= 512 && records <= more
    ensures ListEnds(d, size, offset, es, given, records) ==> ListEnds(d, size, offset, es, given, more)
  {
    hide List, Fed;
    ListExtends(d, size, offset, es, 0, records, more);
    var l, m := List(d, size, offset, es, 0, records), List(d, size, offset, es, 0, more);
    if !Fed(given, l.all).more {
      FedPrefix(given, l.all, m.all);
    }
  }

  // The walk ends, for some number of records, if and only if it ends within a round for
  // each report that the callback takes; and it goes on for ever exactly if the first chain
  // that is not complete goes round without a report, and the callback takes more reports
  // than come before that.
  lemma WalkEndsExactly(d: Disk, sectorSize: nat, offset: int, given: Data)
    requires (sectorSize == 0 || sectorSize >= 512) && Asked(given)
    ensures (exists records :: EndsWithin(d, sectorSize, offset, given, records))
            <==> EndsWithin(d, sectorSize, offset, given, Rounds(Quota(given)))
    ensures (forall records :: !EndsWithin(d, sectorSize, offset, given, records))
            <==> Endless(d, sectorSize, offset, Quota(given))
  {
    hide EndlessFrom, FirstOpen, List, Fed, TableOk, Entries, ReadAt, Quota, Asked, Rounds;
    var size := SectorSize(sectorSize);
    var n := Quota(given);
    if Endless(d, sectorSize, offset, n) {
      var es := Entries(BootTable(ReadAt(d, offset, size).data));
      forall records ensures !EndsWithin(d, sectorSize, offset, given, records) {
        NeverEnds(d, size, offset, es, given, records);
      }
    } else {
      if ReadAt(d, offset, size).Read? && |ReadAt(d, offset, size).data| == size && TableOk(BootTable(ReadAt(d, offset, size).data)) {
        EndsInRounds(d, size, offset, Entries(BootTable(ReadAt(d, offset, size).data)), given);
      }
      assert EndsWithin(d, sectorSize, offset, given, Rounds(n));
    }
  }
}
