// When the walk along a chain of extended boot records ends: exactly when it does not come
// back to an offset where it has been.

module MbrChains {
  import opened Basics
  import opened Bytes
  import opened MbrWalk

  const STARTS: nat := 0x1_0000_0000

  // Where the record at an offset leads on to, if it is readable and valid and does.
  function Successor(d: Disk, size: nat, first: int, current: int): Option<int>
    requires size >= 512
  {
    match ReadAt(d, current, size)
    case Failed => None
    case Read(data) =>
      if |data| != size || !TableOk(ExtendedTable(data)) then None
      else
        match LinkOf(Entries(ExtendedTable(data)))
        case End => None
        case Next(start) => Some(first + size * start)
  }

  // The offset that is visited k records after the current one.
  function VisitedFrom(d: Disk, size: nat, first: int, current: int, k: nat): Option<int>
    requires size >= 512
    decreases k
  {
    if k == 0 then Some(current)
    else
      match Successor(d, size, first, current)
      case None => None
      case Some(next) => VisitedFrom(d, size, first, next, k - 1)
  }

  function Visited(d: Disk, size: nat, first: int, k: nat): Option<int>
    requires size >= 512
  {
    VisitedFrom(d, size, first, first, k)
  }

  ghost predicate Repeats(d: Disk, size: nat, first: int)
    requires size >= 512
  {
    exists i, j :: i < j && Visited(d, size, first, i).Some? && Visited(d, size, first, i) == Visited(d, size, first, j)
  }

  // The first container entry of a record.
  function LinkOf(es: seq<Entry>): Link {
    if es == [] then End
    else if es[0].kind != 0 && Container(es[0].kind) then Next(es[0].start)
    else LinkOf(es[1..])
  }

  lemma {:induction false} ScanLink(size: nat, base: int, es: seq<Entry>, count: nat)
    ensures Scan(size, base, es, count).link == LinkOf(es)
    decreases es
  {
    if es != [] {
      ScanLink(size, base, es[1..], count);
      ScanLink(size, base, es[1..], count + 1);
    }
  }

  // A number of records is not enough exactly if that many can be visited and one more.
  lemma {:induction false} UnfinishedExactly(d: Disk, size: nat, first: int, current: int, count: nat, records: nat)
    requires size >= 512
    ensures Chain(d, size, first, current, count, records).verdict == Unfinished
            <==> VisitedFrom(d, size, first, current, records).Some?
    decreases records
  {
    hide Scan, TableOk, Entries, ReadAt, LinkOf;
    if records > 0 {
      match ReadAt(d, current, size)
      case Failed =>
      case Read(data) =>
        if |data| == size && TableOk(ExtendedTable(data)) {
          var es := Entries(ExtendedTable(data));
          ScanLink(size, current, es, count);
          var record := Scan(size, current, es, count);
          if record.link.Next? {
            UnfinishedExactly(d, size, first, first + size * record.link.start, count + |record.found|, records - 1);
          }
        }
    }
  }

  lemma {:induction false} VisitedOn(d: Disk, size: nat, first: int, current: int, k: nat, more: nat)
    requires size >= 512
    ensures VisitedFrom(d, size, first, current, k + more)
         == match VisitedFrom(d, size, first, current, k)
            case None => None
            case Some(next) => VisitedFrom(d, size, first, next, more)
    decreases k
  {
    hide Successor;
    if k > 0 {
      var next := Successor(d, size, first, current);
      if next.Some? {
        VisitedOn(d, size, first, next.value, k - 1, more);
      }
    }
  }

  // Once an offset is visited twice the chain goes round for ever.
  lemma {:induction false} RoundForEver(d: Disk, size: nat, first: int, i: nat, j: nat, k: nat)
    requires size >= 512 && i < j && Visited(d, size, first, i).Some? && Visited(d, size, first, i) == Visited(d, size, first, j)
    ensures Visited(d, size, first, k).Some?
    decreases k
  {
    hide Successor;
    if k <= j {
      VisitedOn(d, size, first, first, k, j - k);
    } else {
      VisitedOn(d, size, first, first, i, k - j);
      VisitedOn(d, size, first, first, j, k - j);
      RoundForEver(d, size, first, i, j, i + (k - j));
    }
  }

  // Numbers below n that all differ are at most n.
  lemma {:induction false} Pigeonhole(q: seq<nat>, n: nat)
    requires forall i :: 0 <= i < |q| ==> q[i] < n
    requires forall i, j :: 0 <= i < j < |q| ==> q[i] != q[j]
    ensures |q| <= n
    decreases n
  {
    if q != [] {
      assert q[0] < n;
      if i :| 0 <= i < |q| && q[i] == n - 1 {
        Pigeonhole(q[..i] + q[i + 1..], n - 1);
      } else {
        Pigeonhole(q, n - 1);
      }
    }
  }

  lemma StartFits(table: seq<Byte>, i: nat)
    requires |table| == TABLE_SIZE && i < 4
    ensures EntryAt(table, i).start < STARTS
  {
    assert Bound(4) == STARTS by {
      assert Bound(2) == 0x1_0000;
    }
    FromLittleEndianFits(table[16 * i + 8..16 * i + 12]);
  }

  lemma LinkFits(table: seq<Byte>)
    requires |table| == TABLE_SIZE && LinkOf(Entries(table)).Next?
    ensures LinkOf(Entries(table)).start < STARTS
  {
    hide EntryAt, LinkOf;
    var i := LinkIn(Entries(table));
    StartFits(table, i);
  }

  lemma {:induction false} LinkIn(es: seq<Entry>) returns (i: nat)
    requires LinkOf(es).Next?
    ensures i < |es| && es[i].start == LinkOf(es).start
  {
    if es[0].kind != 0 && Container(es[0].kind) {
      i := 0;
    } else {
      i := LinkIn(es[1..]);
      i := i + 1;
    }
  }

  // The sector numbers by which the records were reached.
  lemma {:induction false} StartsOf(d: Disk, size: nat, first: int, current: int, m: nat) returns (q: seq<nat>)
    requires size >= 512 && VisitedFrom(d, size, first, current, m).Some?
    ensures |q| == m
    ensures forall k :: 0 <= k < m ==> q[k] < STARTS && VisitedFrom(d, size, first, current, k + 1) == Some(first + size * q[k])
    decreases m
  {
    hide Successor;
    q := [];
    if m > 0 {
      VisitedOn(d, size, first, current, m - 1, 1);
      q := StartsOf(d, size, first, current, m - 1);
      var last := StartOf(d, size, first, VisitedFrom(d, size, first, current, m - 1).value);
      q := q + [last];
    }
  }

  lemma StartOf(d: Disk, size: nat, first: int, current: int) returns (start: nat)
    requires size >= 512 && Successor(d, size, first, current).Some?
    ensures start < STARTS && Successor(d, size, first, current) == Some(first + size * start)
  {
    hide LinkOf, Entries, TableOk;
    var table := ExtendedTable(ReadAt(d, current, size).data);
    LinkFits(table);
    start := LinkOf(Entries(table)).start;
  }

  // More records than there are sector numbers come back somewhere.
  lemma ManyRepeat(d: Disk, size: nat, first: int, current: int) returns (i: nat, j: nat)
    requires size >= 512 && VisitedFrom(d, size, first, current, STARTS + 1).Some?
    ensures i < j <= STARTS + 1 && VisitedFrom(d, size, first, current, i).Some?
    ensures VisitedFrom(d, size, first, current, i) == VisitedFrom(d, size, first, current, j)
  {
    hide VisitedFrom;
    var q := StartsOf(d, size, first, current, STARTS + 1);
    if a, b :| 0 <= a < b < |q| && q[a] == q[b] {
      i, j := a + 1, b + 1;
    } else {
      Pigeonhole(q, STARTS);
    }
  }

  lemma FirstRepeats(d: Disk, size: nat, first: int)
    requires size >= 512 && VisitedFrom(d, size, first, first, STARTS + 1).Some?
    ensures Repeats(d, size, first)
  {
    hide VisitedFrom;
    var i, j := ManyRepeat(d, size, first, first);
    assert Visited(d, size, first, i) == Visited(d, size, first, j);
  }

  // The listing of a chain ends, for some number of records, if and only if no two visited
  // offsets coincide; and one more record than there are sector numbers decides it. A
  // callback may end the walk earlier, which MbrStops deals with.
  lemma EndsExactly(d: Disk, size: nat, first: int, count: nat)
    requires size >= 512
    ensures (exists records :: Chain(d, size, first, first, count, records).verdict != Unfinished) <==> !Repeats(d, size, first)
    ensures Chain(d, size, first, first, count, STARTS + 1).verdict == Unfinished <==> Repeats(d, size, first)
  {
    hide Chain, VisitedFrom;
    UnfinishedExactly(d, size, first, first, count, STARTS + 1);
    if Repeats(d, size, first) {
      var i, j :| i < j && Visited(d, size, first, i).Some? && Visited(d, size, first, i) == Visited(d, size, first, j);
      forall records ensures Chain(d, size, first, first, count, records).verdict == Unfinished {
        RoundForEver(d, size, first, i, j, records);
        UnfinishedExactly(d, size, first, first, count, records);
      }
    } else if VisitedFrom(d, size, first, first, STARTS + 1).Some? {
      FirstRepeats(d, size, first);
    }
  }

  // The same chain, with more records to look at than there are sector numbers.
  lemma ChainSettles(d: Disk, size: nat, first: int, count: nat, records: nat)
    requires size >= 512 && records >= STARTS + 1
    ensures var settled, chain := Chain(d, size, first, first, count, STARTS + 1), Chain(d, size, first, first, count, records);
            if settled.verdict == Unfinished then chain.verdict == Unfinished else chain == settled
  {
    hide Chain, Repeats;
    EndsExactly(d, size, first, count);
    if Chain(d, size, first, first, count, STARTS + 1).verdict != Unfinished {
      EnoughRecords(d, size, first, first, count, STARTS + 1, records);
    }
  }
}
