// The block list of AWE_FS_Alloc: physical memory runs chained from the highest
// file offset down to zero, and the byte array that the chain stands for.

module AweBlocks {
  import opened Bytes

  const PAGE: nat := 0x20_0000
  const MAX_BLOCK: nat := 0xFFE0_0000

  // The identity of one run of physical pages (a block's MDL).
  type RunId = nat

  // Physical memory in use. A run that has been freed is no longer a key.
  type Memory = map<RunId, seq<Byte>>

  datatype Block = Block(offset: nat, run: RunId)

  // absolute_offset & ALLOC_PAGE_BASE_MASK; on a negative offset the mask rounds
  // towards minus infinity, as Euclidean remainder does.
  function PageBase(x: int): int {
    x - x % PAGE
  }

  function PagesFor(size: int): int {
    PageBase(size + PAGE - 1)
  }

  // AWE_FS_AllocGetTotalSize
  function Total(bs: seq<Block>, m: Memory): int
    requires bs != [] ==> bs[0].run in m
  {
    if bs == [] then 0 else bs[0].offset + PageBase(|m[bs[0].run]|)
  }

  function Runs(bs: seq<Block>): set<RunId> {
    if bs == [] then {} else Runs(bs[1..]) + {bs[0].run}
  }

  // Every block has at least one whole page, starts where the rest of the list
  // ends, and owns a run of memory of its own.
  ghost predicate WellFormed(bs: seq<Block>, m: Memory) {
    bs == [] ||
    (&& WellFormed(bs[1..], m)
     && bs[0].run in m
     && bs[0].run !in Runs(bs[1..])
     && |m[bs[0].run]| >= PAGE
     && bs[0].offset == Total(bs[1..], m))
  }

  // The bytes of the whole pages of all blocks, in file order.
  ghost function Flat(bs: seq<Block>, m: Memory): seq<Byte>
    requires WellFormed(bs, m)
  {
    if bs == [] then [] else Flat(bs[1..], m) + m[bs[0].run][..PageBase(|m[bs[0].run]|)]
  }

  // The rest of the list from the first block that starts at or below base, as the
  // search in AWE_FS_AllocMapPage walks it.
  function Find(bs: seq<Block>, base: int): seq<Block> {
    if bs == [] || bs[0].offset <= base then bs else Find(bs[1..], base)
  }

  lemma {:induction false} FlatSize(bs: seq<Block>, m: Memory)
    requires WellFormed(bs, m)
    ensures |Flat(bs, m)| == Total(bs, m)
    ensures Total(bs, m) % PAGE == 0
    ensures Runs(bs) <= m.Keys
  {
    if bs != [] {
      FlatSize(bs[1..], m);
    }
  }

  // Memory outside the list's own runs does not matter.
  lemma {:induction false} FlatFrame(bs: seq<Block>, m: Memory, m': Memory)
    requires WellFormed(bs, m)
    requires forall r :: r in Runs(bs) ==> r in m && r in m' && m'[r] == m[r]
    ensures WellFormed(bs, m') && Flat(bs, m') == Flat(bs, m) && Total(bs, m') == Total(bs, m)
  {
    if bs != [] {
      FlatFrame(bs[1..], m, m');
    }
  }

  // Whatever position of the file is asked for, the search stops at the one block
  // whose whole pages contain it: neither the missing block nor the undersized
  // block nor the incomplete page can occur below the total size.
  lemma {:induction false} FindFits(bs: seq<Block>, m: Memory, base: nat)
    requires WellFormed(bs, m)
    requires base % PAGE == 0 && base < Total(bs, m)
    ensures var found := Find(bs, base);
            && found != [] && found[0].run in m && found[0].run in Runs(bs)
            && 0 <= base - found[0].offset
            && base - found[0].offset + PAGE <= PageBase(|m[found[0].run]|) <= |m[found[0].run]|
  {
    FlatSize(bs[1..], m);
    if bs[0].offset > base {
      FindFits(bs[1..], m, base);
    }
  }

  // The page that the search finds holds the bytes of the file at that position.
  lemma {:induction false} FindPage(bs: seq<Block>, m: Memory, base: nat)
    requires WellFormed(bs, m)
    requires base % PAGE == 0 && base < Total(bs, m)
    ensures var found := Find(bs, base);
            && found != [] && found[0].run in m && found[0].run in Runs(bs)
            && 0 <= base - found[0].offset && base - found[0].offset + PAGE <= PageBase(|m[found[0].run]|)
            && base + PAGE <= |Flat(bs, m)|
            && Flat(bs, m)[base..base + PAGE] == m[found[0].run][base - found[0].offset..base - found[0].offset + PAGE]
  {
    FindFits(bs, m, base);
    FlatSize(bs, m);
    FlatSize(bs[1..], m);
    var run := m[bs[0].run];
    var top := run[..PageBase(|run|)];
    if bs[0].offset <= base {
      var at := base - bs[0].offset;
      assert at + PAGE <= |top|;
      assert Flat(bs, m)[base..base + PAGE] == top[at..at + PAGE] == run[at..at + PAGE];
    } else {
      FindPage(bs[1..], m, base);
      var low := Flat(bs[1..], m);
      assert (low + top)[base..base + PAGE] == low[base..base + PAGE];
    }
  }

  // Storing d at position at of the page at base, through the run that the search
  // finds, changes exactly the file bytes at the corresponding position.
  lemma {:induction false} StoreThrough(bs: seq<Block>, m: Memory, m': Memory, base: nat, at: nat, d: seq<Byte>)
    requires WellFormed(bs, m)
    requires base % PAGE == 0 && base < Total(bs, m)
    requires at + |d| <= PAGE
    requires var found := Find(bs, base);
             && found != [] && found[0].run in m
             && 0 <= base - found[0].offset && base - found[0].offset + at + |d| <= |m[found[0].run]|
             && m' == m[found[0].run := Splice(m[found[0].run], base - found[0].offset + at, d)]
    ensures base + at + |d| <= |Flat(bs, m)|
    ensures WellFormed(bs, m') && Total(bs, m') == Total(bs, m)
    ensures Flat(bs, m') == Splice(Flat(bs, m), base + at, d)
  {
    FlatSize(bs[1..], m);
    FindFits(bs, m, base);
    if bs[0].offset <= base {
      StoreInHead(bs, m, m', base, at, d);
    } else {
      FindFits(bs[1..], m, base);
      StoreThrough(bs[1..], m, m', base, at, d);
      StoreBelowHead(bs, m, m', base + at, d);
    }
  }

  lemma StoreBelowHead(bs: seq<Block>, m: Memory, m': Memory, p: nat, d: seq<Byte>)
    requires WellFormed(bs, m) && bs != [] && WellFormed(bs[1..], m) && WellFormed(bs[1..], m')
    requires Total(bs[1..], m') == Total(bs[1..], m)
    requires bs[0].run in m' && m'[bs[0].run] == m[bs[0].run]
    requires p + |d| <= |Flat(bs[1..], m)| && Flat(bs[1..], m') == Splice(Flat(bs[1..], m), p, d)
    ensures WellFormed(bs, m') && Total(bs, m') == Total(bs, m)
    ensures p + |d| <= |Flat(bs, m)| && Flat(bs, m') == Splice(Flat(bs, m), p, d)
  {
    var run := m[bs[0].run];
    SpliceLeft(Flat(bs[1..], m), run[..PageBase(|run|)], p, d);
  }

  lemma StoreInHead(bs: seq<Block>, m: Memory, m': Memory, base: nat, at: nat, d: seq<Byte>)
    requires WellFormed(bs, m) && bs != []
    requires bs[0].offset <= base && base - bs[0].offset + at + |d| <= PageBase(|m[bs[0].run]|)
    requires m' == m[bs[0].run := Splice(m[bs[0].run], base - bs[0].offset + at, d)]
    ensures base + at + |d| <= |Flat(bs, m)|
    ensures WellFormed(bs, m') && Total(bs, m') == Total(bs, m)
    ensures Flat(bs, m') == Splice(Flat(bs, m), base + at, d)
  {
    FlatSize(bs[1..], m);
    FlatFrame(bs[1..], m, m');
    var run := m[bs[0].run];
    var size := PageBase(|run|);
    SplicePrefix(run, size, base - bs[0].offset + at, d);
    SpliceRight(Flat(bs[1..], m), run[..size], base - bs[0].offset + at, d);
  }

  // Linking a new block above the list keeps every old byte and every old page.
  lemma LinkBlock(bs: seq<Block>, m: Memory, run: RunId, data: seq<Byte>)
    requires WellFormed(bs, m) && run !in m && |data| >= PAGE
    ensures var bs' := [Block(Total(bs, m), run)] + bs;
            var m' := m[run := data];
            && Total(bs, m) >= 0
            && WellFormed(bs', m')
            && Flat(bs', m') == Flat(bs, m) + data[..PageBase(|data|)]
            && Total(bs', m') == Total(bs, m) + PageBase(|data|)
            && forall base :: 0 <= base < Total(bs, m) ==> Find(bs', base) == Find(bs, base)
  {
    FlatSize(bs, m);
    var bs' := [Block(Total(bs, m), run)] + bs;
    var m' := m[run := data];
    FlatFrame(bs, m, m');
    assert bs'[1..] == bs;
  }

  // Blocks start at ascending offsets from the end of the list to its head.
  lemma {:induction false} Descending(bs: seq<Block>, m: Memory)
    requires WellFormed(bs, m)
    ensures forall j :: 0 <= j < |bs| ==> bs[j].offset % PAGE == 0 && bs[j].offset + PAGE <= Total(bs, m)
    ensures forall i, j :: 0 <= i < j < |bs| ==> bs[j].offset < bs[i].offset
    ensures bs != [] ==> bs[|bs| - 1].offset == 0
  {
    if bs != [] {
      Descending(bs[1..], m);
      FlatSize(bs[1..], m);
      assert forall j :: 1 <= j < |bs| ==> bs[j] == bs[1..][j - 1];
    }
  }
}
