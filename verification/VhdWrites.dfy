// What a completed vhd_write does to the image as a whole, and how the parts of a write
// that crosses blocks add up.

module VhdWrites {
  import opened Bytes
  import opened Chunks
  import opened VhdBitmap
  import opened VhdLayout

  // The block of a disk position.
  function BlockAt(size: nat, p: nat): nat
    requires size > 0
  {
    p / size
  }

  lemma BlockAtIs(size: nat, p: nat, k: nat, o: nat)
    requires p == Start(size, k) + o && o < size
    ensures BlockAt(size, p) == k
  {
    BlockParts(size, p);
    var i := BlockAt(size, p);
    hide BlockAt;
    StartsInOrder(size, i, k);
    StartsInOrder(size, k, i);
  }

  lemma StartsInOrder(d: nat, i: nat, j: nat)
    ensures i < j ==> Start(d, i) + d <= Start(d, j)
    ensures i <= j ==> Start(d, i) <= Start(d, j)
  {
    if i <= j {
      StartMonotone(d, i, j);
    }
  }

  // How many blocks a write of n bytes at p finds missing.
  ghost function NewBlocks(g: Geometry, f: seq<Byte>, p: nat, n: nat): nat
    requires TableEnd(g) <= |f| && g.blockSize > 0 && n > 0
  {
    Holes(g, f, BlockAt(g.blockSize, p), BlockAt(g.blockSize, p + n - 1) + 1)
  }

  // How many bytes that many new blocks add to the file.
  ghost function Growth(g: Geometry, blocks: nat): nat {
    Start(SECTOR + g.blockSize, blocks)
  }

  // The table after a write that met the blocks from lo up to hi: those are in the file
  // now, a block that was in the file stays where it was, and no other block is touched.
  ghost predicate TableAfter(g: Geometry, f: seq<Byte>, f': seq<Byte>, lo: nat, hi: nat)
    requires TableEnd(g) <= |f| && TableEnd(g) <= |f'|
  {
    forall i :: 0 <= i < g.tableEntries ==>
      if lo <= i < hi && Entry(g, f, i) == HOLE then Entry(g, f', i) != HOLE else Entry(g, f', i) == Entry(g, f, i)
  }

  // The effect of writing d at disk position p, in blocks lo up to hi.
  ghost predicate WroteBlocks(g: Geometry, f: seq<Byte>, f': seq<Byte>, p: nat, d: seq<Byte>, lo: nat, hi: nat)
    requires WellFormed(g, f) && p + |d| <= g.currentSize
  {
    && WellFormed(g, f')
    && Disk(g, f') == Splice(Disk(g, f), p, d)
    && f'[..HEADER_END] == f[..HEADER_END]
    && |f'| == |f| + Growth(g, Holes(g, f, lo, hi))
    && TableAfter(g, f, f', lo, hi)
  }

  ghost predicate Wrote(g: Geometry, f: seq<Byte>, f': seq<Byte>, p: nat, d: seq<Byte>)
    requires WellFormed(g, f) && p + |d| <= g.currentSize && |d| > 0
  {
    WroteBlocks(g, f, f', p, d, BlockAt(g.blockSize, p), BlockAt(g.blockSize, p + |d| - 1) + 1)
  }

  lemma WroteFooter(g: Geometry, f: seq<Byte>, f': seq<Byte>, p: nat, d: seq<Byte>)
    requires WellFormed(g, f) && p + |d| <= g.currentSize && |d| > 0 && Wrote(g, f, f', p, d)
    ensures |f'| >= 512 && f'[|f'| - 512..] == g.footer
  {
    hide WellFormed, Disk;
    FooterLast(g, f');
  }

  lemma {:induction false} HolesSplit(g: Geometry, f: seq<Byte>, lo: nat, mid: nat, hi: nat)
    requires TableEnd(g) <= |f| && lo <= mid <= hi
    ensures Holes(g, f, lo, hi) == Holes(g, f, lo, mid) + Holes(g, f, mid, hi)
    decreases mid - lo
  {
    if lo < mid {
      HolesSplit(g, f, lo + 1, mid, hi);
    }
  }

  lemma {:induction false} GrowthAdds(g: Geometry, a: nat, b: nat)
    ensures Growth(g, a + b) == Growth(g, a) + Growth(g, b)
  {
    if b > 0 {
      GrowthAdds(g, a, b - 1);
    }
  }

  lemma HolesAfter(g: Geometry, f: seq<Byte>, f1: seq<Byte>, lo: nat, mid: nat, hi: nat)
    requires TableEnd(g) <= |f| && TableEnd(g) <= |f1| && lo <= mid <= hi
    requires TableAfter(g, f, f1, lo, mid)
    ensures Holes(g, f1, mid, hi) == Holes(g, f, mid, hi)
    ensures Growth(g, Holes(g, f, lo, hi)) == Growth(g, Holes(g, f, lo, mid)) + Growth(g, Holes(g, f1, mid, hi))
  {
    HolesSame(g, f, f1, mid, hi);
    hide Entry, TableAfter;
    HolesSplit(g, f, lo, mid, hi);
    GrowthAdds(g, Holes(g, f, lo, mid), Holes(g, f, mid, hi));
  }

  // A write up to a block boundary followed by a write from there is one write.
  lemma WroteBoth(g: Geometry, f: seq<Byte>, f1: seq<Byte>, f2: seq<Byte>, p: nat, d: seq<Byte>, q: nat, e: seq<Byte>,
                  lo: nat, mid: nat, hi: nat)
    requires WellFormed(g, f) && q == p + |d| && q + |e| <= g.currentSize && lo <= mid <= hi
    requires WroteBlocks(g, f, f1, p, d, lo, mid) && WroteBlocks(g, f1, f2, q, e, mid, hi)
    ensures WroteBlocks(g, f, f2, p, d + e, lo, hi)
  {
    HolesAfter(g, f, f1, lo, mid, hi);
    hide Disk, Splice, WellFormed;
    var disk := Disk(g, f);
    assert |disk| == g.currentSize;
    SpliceTwice(disk, p, d, q, e);
  }

  lemma SpliceTwice(s: seq<Byte>, p: nat, d: seq<Byte>, q: nat, e: seq<Byte>)
    requires q == p + |d| && q + |e| <= |s|
    ensures Splice(Splice(s, p, d), q, e) == Splice(s, p, d + e)
  {
    SpliceAppend(s, p, d, e);
  }

  function Ones(n: nat): (d: seq<Byte>)
    ensures |d| == n && forall i :: 0 <= i < n ==> d[i] == 255
  {
    seq(n, _ => 255)
  }

  // The bitmap bytes for n bytes at position o of the block are set.
  ghost predicate Marked(g: Geometry, f: seq<Byte>, block: nat, o: nat, n: nat)
    requires WellFormed(g, f) && block < g.tableEntries && Entry(g, f, block) != HOLE
  {
    var at := SECTOR * Entry(g, f, block) + FirstByte(o);
    at + ByteCount(n) <= |f| && forall k :: at <= k < at + ByteCount(n) ==> f[k] == 255
  }

  // The effect of storing d at position o of an allocated block.
  ghost predicate Stored(g: Geometry, f: seq<Byte>, f': seq<Byte>, block: nat, o: nat, d: seq<Byte>, p: nat)
    requires WellFormed(g, f) && block < g.tableEntries && Entry(g, f, block) != HOLE && p + |d| <= g.currentSize
  {
    && WellFormed(g, f') && SameTable(g, f, f')
    && |f'| == |f| && f'[..HEADER_END] == f[..HEADER_END]
    && Disk(g, f') == Splice(Disk(g, f), p, d)
    && Marked(g, f', block, o, |d|)
  }

  // Data stored in an allocated block, and then bytes in its bitmap.
  lemma StoredPart(g: Geometry, f: seq<Byte>, f1: seq<Byte>, f2: seq<Byte>, block: nat, o: nat, d: seq<Byte>, p: nat,
                   at: nat, k: nat, bits: seq<Byte>, bitsAt: nat)
    requires WellFormed(g, f) && block < g.tableEntries && Entry(g, f, block) != HOLE
    requires p == Start(g.blockSize, block) + o && o + |d| <= g.blockSize && p + |d| <= g.currentSize
    requires at == SECTOR * Entry(g, f, block) + SECTOR + o && bitsAt == SECTOR * Entry(g, f, block) + k
    requires at + |d| <= |f| && f1 == Splice(f, at, d)
    requires k + |bits| <= SECTOR && bitsAt + |bits| <= |f| && f2 == Splice(f1, bitsAt, bits)
    ensures WellFormed(g, f2) && SameTable(g, f, f2) && |f2| == |f| && f2[..HEADER_END] == f[..HEADER_END]
    ensures Disk(g, f2) == Splice(Disk(g, f), p, d)
  {
    RegionInFile(g, f, block);
    hide Disk, Start, Splice;
    StoreData(g, f, f1, block, o, d, at, p);
    StoreBitmap(g, f1, f2, block, k, bits, bitsAt);
    HeaderKept(f, f1, at, d);
    HeaderKept(f1, f2, bitsAt, bits);
  }

  lemma StoredAndMarked(g: Geometry, f: seq<Byte>, f1: seq<Byte>, f2: seq<Byte>, block: nat, o: nat, d: seq<Byte>, p: nat,
                        at: nat, bits: seq<Byte>, bitsAt: nat)
    requires WellFormed(g, f) && block < g.tableEntries && Entry(g, f, block) != HOLE
    requires p == Start(g.blockSize, block) + o && 0 < |d| && o + |d| <= g.blockSize && p + |d| <= g.currentSize
    requires at == SECTOR * Entry(g, f, block) + SECTOR + o && bitsAt == SECTOR * Entry(g, f, block) + FirstByte(o)
    requires at + |d| <= |f| && f1 == Splice(f, at, d)
    requires bits == Ones(ByteCount(|d|)) && bitsAt + |bits| <= |f| && f2 == Splice(f1, bitsAt, bits)
    ensures Stored(g, f, f2, block, o, d, p)
  {
    StaysInSector(g.blockSize, o, |d|);
    hide Disk, Start, FirstByte, ByteCount;
    StoredPart(g, f, f1, f2, block, o, d, p, at, FirstByte(o), bits, bitsAt);
  }

  lemma HeaderKept(f: seq<Byte>, f': seq<Byte>, at: nat, d: seq<Byte>)
    requires HEADER_END <= at && at + |d| <= |f| && f' == Splice(f, at, d)
    ensures f'[..HEADER_END] == f[..HEADER_END]
  {
  }

  // One missing block counts as one.
  lemma OneHole(g: Geometry, f: seq<Byte>, block: nat)
    requires TableEnd(g) <= |f|
    ensures Holes(g, f, block, block + 1) == if IsHole(g, f, block) then 1 else 0
    ensures Growth(g, 1) == SECTOR + g.blockSize && Growth(g, 0) == 0
  {
    assert Holes(g, f, block + 1, block + 1) == 0;
    assert Growth(g, 0) == 0;
  }

  // The part of a write that falls into one block, without allocation.
  lemma PartWrote(g: Geometry, f: seq<Byte>, f': seq<Byte>, block: nat, o: nat, p: nat, d: seq<Byte>)
    requires WellFormed(g, f) && block < g.tableEntries && Entry(g, f, block) != HOLE && p + |d| <= g.currentSize
    requires Stored(g, f, f', block, o, d, p)
    ensures WroteBlocks(g, f, f', p, d, block, block + 1)
  {
    hide Disk;
    OneHole(g, f, block);
  }

  // The same with allocation first.
  lemma PartWroteNew(g: Geometry, f: seq<Byte>, f1: seq<Byte>, f': seq<Byte>, block: nat, o: nat, p: nat, d: seq<Byte>)
    requires WellFormed(g, f) && block < g.tableEntries && Entry(g, f, block) == HOLE && p + |d| <= g.currentSize
    requires Allocates(g, f, f1, block)
    requires WellFormed(g, f1) && Entry(g, f1, block) != HOLE && Stored(g, f1, f', block, o, d, p)
    ensures WroteBlocks(g, f, f', p, d, block, block + 1)
  {
    AllocateBlock(g, f, f1, block);
    hide Disk, Allocates;
    OneHole(g, f, block);
  }

  // Two writes that allocate: the table entry, then the block with the footer behind it.
  lemma AllocatedByWrites(g: Geometry, f: seq<Byte>, f1: seq<Byte>, f2: seq<Byte>, block: nat, tableAt: nat, end: nat)
    requires FrameOk(g, f) && block < g.tableEntries && |f| < FILE_LIMIT
    requires tableAt == g.tableOffset + 4 * block && end == |f| - FOOTER_SIZE
    requires f1 == Splice(f, tableAt, BigEndian32(end / SECTOR))
    requires f2 == f1[..end] + (Zeros(SECTOR + g.blockSize) + g.footer)
    ensures Allocates(g, f, f2, block)
  {
    assert f2[|f2| - FOOTER_SIZE..] == g.footer;
  }

  lemma BlockAtOrder(size: nat, p: nat, q: nat)
    requires size > 0 && p <= q
    ensures BlockAt(size, p) <= BlockAt(size, q)
  {
    BlockParts(size, p);
    BlockParts(size, q);
    var i, j := BlockAt(size, p), BlockAt(size, q);
    hide BlockAt;
    StartsInOrder(size, j, i);
  }

  lemma BlockParts(size: nat, p: nat)
    requires size > 0
    ensures Start(size, BlockAt(size, p)) <= p < Start(size, BlockAt(size, p)) + size
  {
    var i := p / size;
    StartIsProduct(size, i);
    hide Start;
    assert p == size * i + p % size;
  }

  // A part that stays inside its block is the whole write.
  lemma WroteOnePart(g: Geometry, f: seq<Byte>, f': seq<Byte>, p: nat, d: seq<Byte>, block: nat, o: nat)
    requires WellFormed(g, f) && p + |d| <= g.currentSize && 0 < |d|
    requires p == Start(g.blockSize, block) + o && o + |d| <= g.blockSize
    requires WroteBlocks(g, f, f', p, d, block, block + 1)
    ensures Wrote(g, f, f', p, d)
  {
    hide WroteBlocks, Disk, BlockAt, Start;
    BlockAtIs(g.blockSize, p, block, o);
    BlockAtIs(g.blockSize, p + |d| - 1, block, o + |d| - 1);
  }

  // A part that ends at the block's end leaves the rest with the blocks behind it.
  lemma PartBounds(g: Geometry, p: nat, n: nat, block: nat, o: nat, q: nat)
    requires g.blockSize > 0 && o < g.blockSize
    requires p == Start(g.blockSize, block) + o && q == p - o + g.blockSize && q < p + n
    ensures BlockAt(g.blockSize, p) == block && BlockAt(g.blockSize, q) == block + 1
    ensures BlockAt(g.blockSize, p + n - 1) >= block + 1
  {
    BlockAtIs(g.blockSize, p, block, o);
    BlockAtIs(g.blockSize, q, block + 1, 0);
    BlockAtOrder(g.blockSize, q, p + n - 1);
  }

  lemma RoomForFirst(g: Geometry, f: seq<Byte>, p: nat, n: nat, block: nat, o: nat)
    requires WellFormed(g, f) && n > 0 && p + n <= g.currentSize && block < g.tableEntries
    requires p == Start(g.blockSize, block) + o && o < g.blockSize
    ensures Entry(g, f, block) == HOLE ==> SECTOR + g.blockSize <= Growth(g, NewBlocks(g, f, p, n))
  {
    BlockAtIs(g.blockSize, p, block, o);
    BlockAtOrder(g.blockSize, p, p + n - 1);
    var hi := BlockAt(g.blockSize, p + n - 1) + 1;
    HolesSplit(g, f, block, block + 1, hi);
    OneHole(g, f, block);
    GrowthAdds(g, Holes(g, f, block, block + 1), Holes(g, f, block + 1, hi));
  }

  lemma RoomForRest(g: Geometry, f: seq<Byte>, f1: seq<Byte>, p: nat, d: seq<Byte>, n: nat, block: nat, o: nat, q: nat)
    requires WellFormed(g, f) && q == p + |d| && q < p + n && p + n <= g.currentSize
    requires p == Start(g.blockSize, block) + o && o + |d| == g.blockSize && |d| > 0
    requires WroteBlocks(g, f, f1, p, d, block, block + 1)
    ensures |f1| + Growth(g, NewBlocks(g, f1, q, n - |d|)) == |f| + Growth(g, NewBlocks(g, f, p, n))
  {
    hide Disk, BlockAt, Start, Splice, Holes, Entry;
    PartBounds(g, p, n, block, o, q);
    var last := p + n - 1;
    HolesAfter(g, f, f1, block, block + 1, BlockAt(g.blockSize, last) + 1);
    assert q + (n - |d|) - 1 == last;
    assert NewBlocks(g, f1, q, n - |d|) == Holes(g, f1, block + 1, BlockAt(g.blockSize, last) + 1);
  }

  lemma WroteParts(g: Geometry, f: seq<Byte>, f1: seq<Byte>, f2: seq<Byte>, p: nat, d: seq<Byte>, first: nat,
                   block: nat, o: nat, q: nat)
    requires WellFormed(g, f) && 0 < first < |d| && p + |d| <= g.currentSize && q == p + first
    requires p == Start(g.blockSize, block) + o && o + first == g.blockSize
    requires WroteBlocks(g, f, f1, p, d[..first], block, block + 1) && Wrote(g, f1, f2, q, d[first..])
    ensures Wrote(g, f, f2, p, d)
  {
    hide WroteBlocks, BlockAt, Start, Disk;
    PartBounds(g, p, |d|, block, o, q);
    assert d[..first] + d[first..] == d;
    WroteBoth(g, f, f1, f2, p, d[..first], q, d[first..], block, block + 1, BlockAt(g.blockSize, p + |d| - 1) + 1);
  }

  // Filling a hole with zeros would not have needed a new block.
  lemma ZerosIntoHole(g: Geometry, f: seq<Byte>, block: nat, o: nat, n: nat, p: nat)
    requires WellFormed(g, f) && block < g.tableEntries && Entry(g, f, block) == HOLE
    requires p == Start(g.blockSize, block) + o && o + n <= g.blockSize && p + n <= g.currentSize
    ensures Splice(Disk(g, f), p, Zeros(n)) == Disk(g, f)
  {
    DiskInHole(g, f, block, o, n, p);
    SpliceSame(Disk(g, f), p, Zeros(n));
  }

  lemma SpliceSame(s: seq<Byte>, p: nat, d: seq<Byte>)
    requires p + |d| <= |s| && s[p..p + |d|] == d
    ensures Splice(s, p, d) == s
  {
    forall i | p <= i < p + |d| ensures d[i - p] == s[i] {
      assert s[p..p + |d|][i - p] == s[i];
    }
  }

  // All missing blocks would still fit below the addressable size.
  ghost predicate Room(g: Geometry, f: seq<Byte>)
    requires TableEnd(g) <= |f|
  {
    |f| + Growth(g, Holes(g, f, 0, g.tableEntries)) <= FILE_LIMIT
  }

  lemma RoomForWrite(g: Geometry, f: seq<Byte>, p: nat, n: nat)
    requires WellFormed(g, f) && Room(g, f) && n > 0 && p + n <= g.currentSize
    ensures |f| + Growth(g, NewBlocks(g, f, p, n)) <= FILE_LIMIT
  {
    hide BlockAt, WellFormed, FrameOk, Growth, Holes;
    TableBounds(g, f);
    var last := p + n - 1;
    var lo, hi := BlockAt(g.blockSize, p), BlockAt(g.blockSize, last) + 1;
    BlocksInTable(g, f, p, n, lo, hi);
    HolesSplit(g, f, 0, lo, hi);
    HolesSplit(g, f, 0, hi, g.tableEntries);
    GrowthAdds(g, Holes(g, f, 0, hi), Holes(g, f, hi, g.tableEntries));
    GrowthAdds(g, Holes(g, f, 0, lo), Holes(g, f, lo, hi));
  }

  lemma TableBounds(g: Geometry, f: seq<Byte>)
    requires WellFormed(g, f)
    ensures g.blockSize > 0 && TableEnd(g) <= |f|
  {
  }

  lemma BlocksInTable(g: Geometry, f: seq<Byte>, p: nat, n: nat, lo: nat, hi: nat)
    requires WellFormed(g, f) && n > 0 && p + n <= g.currentSize
    requires lo == BlockAt(g.blockSize, p) && hi == BlockAt(g.blockSize, p + n - 1) + 1
    ensures lo < hi <= g.tableEntries
  {
    BlockAtOrder(g.blockSize, p, p + n - 1);
    BlockParts(g.blockSize, p + n - 1);
    StartsInOrder(g.blockSize, g.tableEntries, hi - 1);
  }

  // A write uses up exactly as much room as it fills holes: what the file and the blocks
  // still missing take together stays the same.
  lemma RoomAfterWrite(g: Geometry, f: seq<Byte>, f': seq<Byte>, p: nat, d: seq<Byte>)
    requires WellFormed(g, f) && Room(g, f) && |d| > 0 && p + |d| <= g.currentSize && Wrote(g, f, f', p, d)
    ensures TableEnd(g) <= |f| && TableEnd(g) <= |f'|
    ensures |f'| + Growth(g, Holes(g, f', 0, g.tableEntries)) == |f| + Growth(g, Holes(g, f, 0, g.tableEntries))
    ensures Room(g, f')
  {
    hide BlockAt, WellFormed, FrameOk, WroteBlocks, Wrote, TableAfter, Disk, Growth, Holes;
    TableBounds(g, f);
    var last := p + |d| - 1;
    var lo, hi := BlockAt(g.blockSize, p), BlockAt(g.blockSize, last) + 1;
    BlocksInTable(g, f, p, |d|, lo, hi);
    WroteTable(g, f, f', p, d, lo, hi);
    RoomLeft(g, f, f', lo, hi);
  }

  lemma WroteTable(g: Geometry, f: seq<Byte>, f': seq<Byte>, p: nat, d: seq<Byte>, lo: nat, hi: nat)
    requires WellFormed(g, f) && |d| > 0 && p + |d| <= g.currentSize && Wrote(g, f, f', p, d)
    requires lo == BlockAt(g.blockSize, p) && hi == BlockAt(g.blockSize, p + |d| - 1) + 1
    ensures WellFormed(g, f') && TableEnd(g) <= |f| && TableEnd(g) <= |f'|
    ensures TableAfter(g, f, f', lo, hi) && |f'| == |f| + Growth(g, Holes(g, f, lo, hi))
  {
    hide BlockAt, TableAfter, Growth, Holes, Disk;
  }

  lemma RoomLeft(g: Geometry, f: seq<Byte>, f': seq<Byte>, lo: nat, hi: nat)
    requires TableEnd(g) <= |f| && TableEnd(g) <= |f'| && lo <= hi <= g.tableEntries
    requires TableAfter(g, f, f', lo, hi) && |f'| == |f| + Growth(g, Holes(g, f, lo, hi))
    ensures |f'| + Growth(g, Holes(g, f', 0, g.tableEntries)) == |f| + Growth(g, Holes(g, f, 0, g.tableEntries))
  {
    HolesSame(g, f, f', 0, lo);
    HolesSame(g, f, f', hi, g.tableEntries);
    NoHolesLeft(g, f', lo, hi);
    hide TableAfter, Entry;
    forall h | h == f || h == f' ensures Holes(g, h, 0, g.tableEntries) == Holes(g, h, 0, lo) + Holes(g, h, lo, hi) + Holes(g, h, hi, g.tableEntries) {
      HolesSplit(g, h, 0, lo, hi);
      HolesSplit(g, h, 0, hi, g.tableEntries);
    }
    var before, rest := Holes(g, f, 0, lo) + Holes(g, f, hi, g.tableEntries), Holes(g, f, lo, hi);
    GrowthAdds(g, rest, before);
  }

  lemma {:induction false} NoHolesLeft(g: Geometry, f: seq<Byte>, lo: nat, hi: nat)
    requires TableEnd(g) <= |f| && forall i :: lo <= i < hi ==> !IsHole(g, f, i)
    ensures Holes(g, f, lo, hi) == 0
    decreases hi - lo
  {
    if lo < hi {
      NoHolesLeft(g, f, lo + 1, hi);
    }
  }
}
