// A dynamic VHD image file: where the Block Allocation Table puts each logical block,
// which images are well formed, and the flat disk that an image stands for.

module VhdLayout {
  import opened Basics
  import opened Bytes
  import opened Chunks

  const SECTOR: nat := 512
  const FOOTER_SIZE: nat := 512
  const HEADER_END: nat := 1536       // footer copy and dynamic disk header
  const HOLE: nat := 0xFFFF_FFFF      // BAT entry of a block that is not in the file
  const FILE_LIMIT: nat := 0x200_0000_0000

  // The decoded header fields that describe the image (the number of table entries is a
  // 32-bit field of the dynamic disk header), and the footer read from the file's start.
  datatype Geometry = Geometry(tableOffset: nat, tableEntries: nat, blockSize: nat, currentSize: nat, footer: seq<Byte>)

  // Block sizes for which the code's one-sector bitmap and its shifts and masks are right:
  // the powers of two from 4 KiB to 2 MiB.
  ghost predicate SupportedBlockSize(n: nat) {
    && 0x1000 <= n <= 0x20_0000 && n % 0x1000 == 0
    && exists k: nat :: n == PowerOfTwo(k)
  }

  // ntohl of the BAT entry stored at position at, and its inverse.
  function BigEndian32At(f: seq<Byte>, at: nat): (n: nat)
    requires at + 4 <= |f|
    ensures n < 0x1_0000_0000
  {
    0x100_0000 * (f[at] as int) + 0x1_0000 * (f[at + 1] as int) + 0x100 * (f[at + 2] as int) + f[at + 3] as int
  }

  function BigEndian32(n: nat): (d: seq<Byte>)
    requires n < 0x1_0000_0000
    ensures |d| == 4 && BigEndian32At(d, 0) == n
  {
    var high, low := n / 0x1_0000, n % 0x1_0000;
    [high / 0x100, high % 0x100, low / 0x100, low % 0x100]
  }

  // Table entries are stored with their highest byte first.
  lemma HighestFirst(f: seq<Byte>, at: nat)
    requires at + 4 <= |f|
    ensures var n := BigEndian32At(f, at);
            n / 0x100_0000 == f[at] && n / 0x1_0000 % 0x100 == f[at + 1] && n / 0x100 % 0x100 == f[at + 2] && n % 0x100 == f[at + 3]
  {
    FourBytes(f[at], f[at + 1], f[at + 2], f[at + 3]);
  }

  lemma FourBytes(a: nat, b: nat, c: nat, d: nat)
    requires a < 0x100 && b < 0x100 && c < 0x100 && d < 0x100
    ensures var n := 0x100_0000 * a + 0x1_0000 * b + 0x100 * c + d;
            n / 0x100_0000 == a && n / 0x1_0000 % 0x100 == b && n / 0x100 % 0x100 == c && n % 0x100 == d
  {
    var n := 0x100_0000 * a + 0x1_0000 * b + 0x100 * c + d;
    assert n / 0x100 == 0x1_0000 * a + 0x100 * b + c;
    assert n / 0x1_0000 == 0x100 * a + b;
  }

  function TableEnd(g: Geometry): nat {
    g.tableOffset + 4 * g.tableEntries
  }

  function Entry(g: Geometry, f: seq<Byte>, i: nat): nat
    requires g.tableOffset + 4 * i + 4 <= |f|
  {
    BigEndian32At(f, g.tableOffset + 4 * i)
  }

  // The bitmap sector and the data of an allocated block lie between the header and
  // the footer, clear of the table.
  ghost predicate RegionOk(g: Geometry, length: nat, e: nat) {
    var start := SECTOR * e;
    && HEADER_END <= start && start + SECTOR + g.blockSize <= length - FOOTER_SIZE
    && (start + SECTOR + g.blockSize <= g.tableOffset || TableEnd(g) <= start)
  }

  ghost predicate Apart(g: Geometry, e: nat, e': nat) {
    SECTOR * e + SECTOR + g.blockSize <= SECTOR * e' || SECTOR * e' + SECTOR + g.blockSize <= SECTOR * e
  }

  ghost predicate FrameOk(g: Geometry, f: seq<Byte>) {
    && SupportedBlockSize(g.blockSize)
    && g.tableEntries < 0x1_0000_0000 && g.currentSize <= Start(g.blockSize, g.tableEntries)
    && |f| % SECTOR == 0
    && HEADER_END <= g.tableOffset && TableEnd(g) <= |f| - FOOTER_SIZE
    && |g.footer| == FOOTER_SIZE
    && f[|f| - FOOTER_SIZE..] == g.footer
  }

  ghost predicate WellFormed(g: Geometry, f: seq<Byte>) {
    && FrameOk(g, f)
    && (forall i :: 0 <= i < g.tableEntries && Entry(g, f, i) != HOLE ==> RegionOk(g, |f|, Entry(g, f, i)))
    && (forall i, j :: 0 <= i < j < g.tableEntries && Entry(g, f, i) != HOLE && Entry(g, f, j) != HOLE ==>
          Apart(g, Entry(g, f, i), Entry(g, f, j)))
  }

  lemma FooterLast(g: Geometry, f: seq<Byte>)
    requires WellFormed(g, f)
    ensures |f| >= 512 && f[|f| - 512..] == g.footer
  {
  }

  // The data that block i holds; blocks that are not in the file read as zero.
  ghost function BlockData(g: Geometry, f: seq<Byte>, i: nat): (d: seq<Byte>)
    requires WellFormed(g, f) && i < g.tableEntries
    ensures |d| == g.blockSize
  {
    var e := Entry(g, f, i);
    if e == HOLE then seq(g.blockSize, _ => 0) else f[SECTOR * e + SECTOR..SECTOR * e + SECTOR + g.blockSize]
  }

  ghost function Blocks(g: Geometry, f: seq<Byte>): (chunks: seq<seq<Byte>>)
    requires WellFormed(g, f)
    ensures |chunks| == g.tableEntries && Uniform(chunks, g.blockSize)
    ensures forall i :: 0 <= i < |chunks| ==> chunks[i] == BlockData(g, f, i)
  {
    seq(g.tableEntries, i requires 0 <= i < g.tableEntries => BlockData(g, f, i))
  }

  // The disk that the image stands for.
  ghost function Disk(g: Geometry, f: seq<Byte>): (disk: seq<Byte>)
    requires WellFormed(g, f)
    ensures |disk| == g.currentSize
  {
    Truncated(Blocks(g, f), g.blockSize, g.currentSize)
  }

  ghost predicate IsHole(g: Geometry, f: seq<Byte>, i: nat)
    requires TableEnd(g) <= |f|
  {
    i < g.tableEntries && Entry(g, f, i) == HOLE
  }

  // How many of the blocks from lo up to hi are not in the file.
  ghost function Holes(g: Geometry, f: seq<Byte>, lo: nat, hi: nat): nat
    requires TableEnd(g) <= |f|
    decreases hi - lo
  {
    if lo >= hi then 0 else (if IsHole(g, f, lo) then 1 else 0) + Holes(g, f, lo + 1, hi)
  }

  lemma {:induction false} HolesSame(g: Geometry, f: seq<Byte>, f': seq<Byte>, lo: nat, hi: nat)
    requires TableEnd(g) <= |f| && TableEnd(g) <= |f'|
    requires forall i :: lo <= i < hi ==> IsHole(g, f', i) == IsHole(g, f, i)
    ensures Holes(g, f', lo, hi) == Holes(g, f, lo, hi)
    decreases hi - lo
  {
    if lo < hi {
      HolesSame(g, f, f', lo + 1, hi);
    }
  }

  ghost predicate SameTable(g: Geometry, f: seq<Byte>, f': seq<Byte>)
    requires TableEnd(g) <= |f| && TableEnd(g) <= |f'|
  {
    forall i :: 0 <= i < g.tableEntries ==> Entry(g, f', i) == Entry(g, f, i)
  }

  // An overwrite that stays clear of the header, the table and the footer keeps the
  // image well formed.
  lemma OverwriteKeepsLayout(g: Geometry, f: seq<Byte>, f': seq<Byte>, at: nat, d: seq<Byte>)
    requires WellFormed(g, f)
    requires HEADER_END <= at && at + |d| <= |f| - FOOTER_SIZE && f' == Splice(f, at, d)
    requires at + |d| <= g.tableOffset || TableEnd(g) <= at
    ensures WellFormed(g, f') && SameTable(g, f, f')
  {
    forall i | 0 <= i < g.tableEntries ensures Entry(g, f', i) == Entry(g, f, i) {
    }
    assert f'[|f| - FOOTER_SIZE..] == f[|f| - FOOTER_SIZE..];
  }

  // Writing inside one block's region, bitmap or data, leaves every other block's data.
  lemma OtherBlock(g: Geometry, f: seq<Byte>, f': seq<Byte>, block: nat, at: nat, d: seq<Byte>, i: nat)
    requires WellFormed(g, f) && block < g.tableEntries && Entry(g, f, block) != HOLE
    requires SECTOR * Entry(g, f, block) <= at && at + |d| <= SECTOR * Entry(g, f, block) + SECTOR + g.blockSize <= |f|
    requires f' == Splice(f, at, d) && WellFormed(g, f') && SameTable(g, f, f')
    requires i < g.tableEntries && i != block
    ensures BlockData(g, f', i) == BlockData(g, f, i)
  {
    var e := Entry(g, f, i);
    if e != HOLE {
      assert RegionOk(g, |f|, e);
      assert if i < block then Apart(g, e, Entry(g, f, block)) else Apart(g, Entry(g, f, block), e);
      SameData(g, f, f', i, SECTOR * e + SECTOR, at, d);
    }
  }

  // Data that an overwrite does not meet.
  lemma SameData(g: Geometry, f: seq<Byte>, f': seq<Byte>, i: nat, from: nat, at: nat, d: seq<Byte>)
    requires WellFormed(g, f) && WellFormed(g, f') && i < g.tableEntries
    requires at + |d| <= |f| && f' == Splice(f, at, d)
    requires Entry(g, f, i) == Entry(g, f', i) != HOLE && from == SECTOR * Entry(g, f, i) + SECTOR
    requires at + |d| <= from || from + g.blockSize <= at
    ensures BlockData(g, f', i) == BlockData(g, f, i)
  {
    BlockDataFrom(g, f, i, from);
    BlockDataFrom(g, f', i, from);
    SpliceOutside(f, f', at, d, from, g.blockSize);
  }

  lemma WriteInRegion(g: Geometry, f: seq<Byte>, f': seq<Byte>, block: nat, at: nat, d: seq<Byte>)
    requires WellFormed(g, f) && block < g.tableEntries && Entry(g, f, block) != HOLE
    requires SECTOR * Entry(g, f, block) <= at && at + |d| <= SECTOR * Entry(g, f, block) + SECTOR + g.blockSize <= |f|
    requires f' == Splice(f, at, d)
    ensures WellFormed(g, f') && SameTable(g, f, f')
    ensures Blocks(g, f') == Blocks(g, f)[block := BlockData(g, f', block)]
  {
    assert RegionOk(g, |f|, Entry(g, f, block));
    OverwriteKeepsLayout(g, f, f', at, d);
    forall i | 0 <= i < g.tableEntries && i != block ensures BlockData(g, f', i) == BlockData(g, f, i) {
      OtherBlock(g, f, f', block, at, d, i);
    }
  }

  // Storing data in an allocated block changes exactly the disk bytes that the block
  // backs at that position.
  lemma StoreData(g: Geometry, f: seq<Byte>, f': seq<Byte>, block: nat, o: nat, d: seq<Byte>, at: nat, p: nat)
    requires WellFormed(g, f) && block < g.tableEntries && Entry(g, f, block) != HOLE
    requires p == Start(g.blockSize, block) + o
    requires o + |d| <= g.blockSize && p + |d| <= g.currentSize
    requires at == SECTOR * Entry(g, f, block) + SECTOR + o
    requires at - o + g.blockSize <= |f| && f' == Splice(f, at, d)
    ensures WellFormed(g, f') && SameTable(g, f, f')
    ensures Disk(g, f') == Splice(Disk(g, f), p, d)
  {
    hide Disk, Start;
    WriteInRegion(g, f, f', block, at, d);
    var from := at - o;
    BlockDataFrom(g, f, block, from);
    BlockDataFrom(g, f', block, from);
    DataSpliced(f, f', from, g.blockSize, o, at, d);
    DiskSpliced(g, f, f', block, o, d, p);
  }

  lemma DiskSpliced(g: Geometry, f: seq<Byte>, f': seq<Byte>, block: nat, o: nat, d: seq<Byte>, p: nat)
    requires WellFormed(g, f) && WellFormed(g, f') && block < g.tableEntries
    requires p == Start(g.blockSize, block) + o
    requires o + |d| <= g.blockSize && p + |d| <= g.currentSize
    requires Blocks(g, f') == Blocks(g, f)[block := Splice(BlockData(g, f, block), o, d)]
    ensures Disk(g, f') == Splice(Disk(g, f), p, d)
  {
    TruncatedSpliced(Blocks(g, f), Blocks(g, f'), g.blockSize, g.currentSize, block, o, d, p);
  }

  lemma BlockDataFrom(g: Geometry, f: seq<Byte>, block: nat, from: nat)
    requires WellFormed(g, f) && block < g.tableEntries && Entry(g, f, block) != HOLE
    requires from == SECTOR * Entry(g, f, block) + SECTOR
    ensures from + g.blockSize <= |f| && BlockData(g, f, block) == f[from..from + g.blockSize]
  {
    assert RegionOk(g, |f|, Entry(g, f, block));
  }

  lemma DataSpliced(f: seq<Byte>, f': seq<Byte>, from: nat, size: nat, o: nat, at: nat, d: seq<Byte>)
    requires o + |d| <= size && from + size <= |f| && at == from + o
    requires f' == Splice(f, at, d)
    ensures f'[from..from + size] == Splice(f[from..from + size], o, d)
  {
  }

  // Writing in the bitmap sector of an allocated block changes no disk byte.
  lemma StoreBitmap(g: Geometry, f: seq<Byte>, f': seq<Byte>, block: nat, k: nat, d: seq<Byte>, at: nat)
    requires WellFormed(g, f) && block < g.tableEntries && Entry(g, f, block) != HOLE
    requires at == SECTOR * Entry(g, f, block) + k && k + |d| <= SECTOR
    requires at - k + SECTOR + g.blockSize <= |f| && f' == Splice(f, at, d)
    ensures WellFormed(g, f') && SameTable(g, f, f')
    ensures Disk(g, f') == Disk(g, f)
  {
    var from := at - k + SECTOR;
    WriteInRegion(g, f, f', block, at, d);
    SameData(g, f, f', block, from, at, d);
    assert Blocks(g, f') == Blocks(g, f);
  }

  // What the table entry of a block says about the part of the disk in that block.
  lemma DiskInBlock(g: Geometry, f: seq<Byte>, block: nat, o: nat, n: nat, p: nat)
    requires WellFormed(g, f) && block < g.tableEntries
    requires p == Start(g.blockSize, block) + o && o + n <= g.blockSize && p + n <= g.currentSize
    ensures Disk(g, f)[p..p + n] == BlockData(g, f, block)[o..o + n]
  {
    TruncatedAt(Blocks(g, f), g.blockSize, g.currentSize, block, o, n, p);
  }

  lemma DiskInHole(g: Geometry, f: seq<Byte>, block: nat, o: nat, n: nat, p: nat)
    requires WellFormed(g, f) && block < g.tableEntries && Entry(g, f, block) == HOLE
    requires p == Start(g.blockSize, block) + o && o + n <= g.blockSize && p + n <= g.currentSize
    ensures Disk(g, f)[p..p + n] == Zeros(n)
  {
    DiskInBlock(g, f, block, o, n, p);
  }

  // The region of an allocated block lies inside the file.
  lemma RegionInFile(g: Geometry, f: seq<Byte>, block: nat)
    requires WellFormed(g, f) && block < g.tableEntries && Entry(g, f, block) != HOLE
    ensures RegionOk(g, |f|, Entry(g, f, block))
  {
  }

  // The file after the table entry of a hole has been set to the footer's sector and a
  // zeroed block with a new footer has been written over the old footer.
  ghost predicate Allocates(g: Geometry, f: seq<Byte>, f': seq<Byte>, block: nat)
    requires FrameOk(g, f) && block < g.tableEntries
  {
    var at := g.tableOffset + 4 * block;
    && |f| < FILE_LIMIT
    && |f'| == |f| + SECTOR + g.blockSize
    && (forall p :: 0 <= p < |f| - FOOTER_SIZE && !(at <= p < at + 4) ==> f'[p] == f[p])
    && (forall p :: |f| - FOOTER_SIZE <= p < |f| + g.blockSize ==> f'[p] == 0)
    && f'[|f'| - FOOTER_SIZE..] == g.footer
    && f'[at..at + 4] == BigEndian32((|f| - FOOTER_SIZE) / SECTOR)
  }

  lemma BigEndian32Slice(f: seq<Byte>, at: nat, n: nat)
    requires at + 4 <= |f| && n < 0x1_0000_0000 && f[at..at + 4] == BigEndian32(n)
    ensures BigEndian32At(f, at) == n
  {
    var d := f[at..at + 4];
    assert d[0] == f[at] && d[1] == f[at + 1] && d[2] == f[at + 2] && d[3] == f[at + 3];
    assert BigEndian32At(d, 0) == n;
  }

  lemma AllocatedFrame(g: Geometry, f: seq<Byte>, f': seq<Byte>, block: nat)
    requires FrameOk(g, f) && block < g.tableEntries && Allocates(g, f, f', block)
    ensures FrameOk(g, f') && f'[..HEADER_END] == f[..HEADER_END]
  {
    hide PowerOfTwo, Start, BigEndian32, Zeros;
    SectorsAdd(|f|, g.blockSize);
    assert |f'| == |f| + SECTOR + g.blockSize;
  }

  lemma SectorsAdd(length: nat, blockSize: nat)
    requires length % SECTOR == 0 && blockSize % 0x1000 == 0
    ensures (length + SECTOR + blockSize) % SECTOR == 0
  {
  }

  lemma AllocatedEntries(g: Geometry, f: seq<Byte>, f': seq<Byte>, block: nat)
    requires FrameOk(g, f) && block < g.tableEntries && Allocates(g, f, f', block)
    ensures SECTOR * Entry(g, f', block) == |f| - FOOTER_SIZE
    ensures forall i :: 0 <= i < g.tableEntries && i != block ==> Entry(g, f', i) == Entry(g, f, i)
  {
    hide PowerOfTwo, Start, BigEndian32, SupportedBlockSize;
    BigEndian32Slice(f', g.tableOffset + 4 * block, (|f| - FOOTER_SIZE) / SECTOR);
  }

  // Allocation keeps the image well formed, fills exactly one table entry and does not
  // change the disk.
  lemma AllocateBlock(g: Geometry, f: seq<Byte>, f': seq<Byte>, block: nat)
    requires WellFormed(g, f) && block < g.tableEntries && Entry(g, f, block) == HOLE
    requires Allocates(g, f, f', block)
    ensures WellFormed(g, f') && |f'| == |f| + SECTOR + g.blockSize
    ensures f'[..HEADER_END] == f[..HEADER_END]
    ensures Entry(g, f', block) != HOLE
    ensures forall i :: 0 <= i < g.tableEntries && i != block ==> Entry(g, f', i) == Entry(g, f, i)
    ensures Disk(g, f') == Disk(g, f)
  {
    AllocatedFrame(g, f, f', block);
    AllocatedEntries(g, f, f', block);
    AllocatedRegions(g, f, f', block);
    forall i | 0 <= i < g.tableEntries ensures BlockData(g, f', i) == BlockData(g, f, i) {
      AllocatedData(g, f, f', block, i);
    }
    assert Blocks(g, f') == Blocks(g, f);
  }

  lemma AllocatedRegions(g: Geometry, f: seq<Byte>, f': seq<Byte>, block: nat)
    requires WellFormed(g, f) && block < g.tableEntries && FrameOk(g, f')
    requires |f'| == |f| + SECTOR + g.blockSize && SECTOR * Entry(g, f', block) == |f| - FOOTER_SIZE
    requires forall i :: 0 <= i < g.tableEntries && i != block ==> Entry(g, f', i) == Entry(g, f, i)
    ensures WellFormed(g, f')
  {
    forall i | 0 <= i < g.tableEntries && Entry(g, f', i) != HOLE
      ensures RegionOk(g, |f'|, Entry(g, f', i))
    {
      if i != block {
        assert RegionOk(g, |f|, Entry(g, f, i));
      }
    }
    forall i, j | 0 <= i < j < g.tableEntries && Entry(g, f', i) != HOLE && Entry(g, f', j) != HOLE
      ensures Apart(g, Entry(g, f', i), Entry(g, f', j))
    {
      if i == block {
        assert RegionOk(g, |f|, Entry(g, f, j));
      } else if j == block {
        assert RegionOk(g, |f|, Entry(g, f, i));
      }
    }
  }

  lemma AllocatedData(g: Geometry, f: seq<Byte>, f': seq<Byte>, block: nat, i: nat)
    requires WellFormed(g, f) && WellFormed(g, f') && block < g.tableEntries && Entry(g, f, block) == HOLE
    requires Allocates(g, f, f', block) && Entry(g, f', block) != HOLE
    requires i < g.tableEntries
    ensures BlockData(g, f', i) == BlockData(g, f, i)
  {
    AllocatedEntries(g, f, f', block);
    if i == block {
      var from := |f| - FOOTER_SIZE + SECTOR;
      BlockDataFrom(g, f', i, from);
    } else if Entry(g, f, i) != HOLE {
      assert RegionOk(g, |f|, Entry(g, f, i));
      var from := SECTOR * Entry(g, f, i) + SECTOR;
      BlockDataFrom(g, f, i, from);
      BlockDataFrom(g, f', i, from);
    }
  }
}
