// The dynamic VHD engine: reads and writes of any range of the disk, block by block,
// through the Block Allocation Table, allocating blocks as they are first written.

module VhdImage {
  import opened Bytes
  import opened Chunks
  import opened FlatDisk
  import opened VhdBitmap
  import opened VhdLayout
  import opened VhdWrites

  // The code compares the table entry with 0xFFFFFFFF before it swaps the bytes; the
  // answer is the same either way.
  lemma HoleInEitherOrder(d: seq<Byte>)
    requires |d| == 4
    ensures BigEndian32At(d, 0) == HOLE <==> BigEndian32At([d[3], d[2], d[1], d[0]], 0) == HOLE
  {
  }

  lemma EntryRead(f: seq<Byte>, at: nat)
    requires at + 4 <= |f|
    ensures BigEndian32At(f[at..at + 4], 0) == BigEndian32At(f, at)
  {
    var d := f[at..at + 4];
    assert d[0] == f[at] && d[1] == f[at + 1] && d[2] == f[at + 2] && d[3] == f[at + 3];
  }

  // The shift and the mask that split a disk position into a block and a place in it.
  method SplitPosition(size: nat, p: nat) returns (block: nat, o: nat)
    requires size > 0
    ensures p == Start(size, block) + o && o < size
  {
    block := p / size;
    o := p % size;
    StartIsProduct(size, block);
  }

  lemma BlockInTable(g: Geometry, f: seq<Byte>, p: nat, block: nat, o: nat)
    requires WellFormed(g, f) && p <= g.currentSize && p == Start(g.blockSize, block) + o && o < g.blockSize
    ensures block < 0x1_0000_0000 && g.tableOffset + 4 * block + 4 <= |f|
    ensures p < g.currentSize ==> block < g.tableEntries
  {
    StartsInOrder(g.blockSize, g.tableEntries, block);
    if block == g.tableEntries {
      assert p >= Start(g.blockSize, g.tableEntries);
    }
  }

  // What the table entry of a block says about the part of the disk in that block.
  lemma DiskInFile(g: Geometry, f: seq<Byte>, block: nat, o: nat, n: nat, p: nat, at: nat)
    requires WellFormed(g, f) && block < g.tableEntries && Entry(g, f, block) != HOLE
    requires p == Start(g.blockSize, block) + o && o + n <= g.blockSize && p + n <= g.currentSize
    requires at == SECTOR * Entry(g, f, block) + SECTOR + o
    ensures at + n <= |f| - FOOTER_SIZE && Disk(g, f)[p..p + n] == f[at..at + n]
  {
    hide Disk, Start, WellFormed;
    RegionInFile(g, f, block);
    DiskInBlock(g, f, block, o, n, p);
    var from := at - o;
    BlockDataFrom(g, f, block, from);
    PartOfBlock(f, from, g.blockSize, o, n, at);
  }

  lemma PartOfBlock(f: seq<Byte>, from: nat, size: nat, o: nat, n: nat, at: nat)
    requires from + size <= |f| && o + n <= size && at == from + o
    ensures f[from..from + size][o..o + n] == f[at..at + n]
  {
    SubSlice(f, from, from + size, o, o + n);
  }

  // Everything the table says about the first part of a range.
  lemma Locate(g: Geometry, f: seq<Byte>, block: nat, o: nat, n: nat, p: nat, e: nat, at: nat)
    requires WellFormed(g, f) && p + n <= g.currentSize && o + n <= g.blockSize
    requires p == Start(g.blockSize, block) + o && g.tableOffset + 4 * block + 4 <= |f|
    requires p < g.currentSize ==> block < g.tableEntries
    requires e == Entry(g, f, block) && at == SECTOR * e + SECTOR + o
    ensures Disk(g, f)[p..p + n] == if e == HOLE then Zeros(n) else Segment(f, at, n)
  {
    if n == 0 {
      assert Disk(g, f)[p..p + n] == [];
    } else {
      LocatePart(g, f, block, o, n, p, at);
    }
  }

  lemma LocatePart(g: Geometry, f: seq<Byte>, block: nat, o: nat, n: nat, p: nat, at: nat)
    requires WellFormed(g, f) && block < g.tableEntries
    requires p == Start(g.blockSize, block) + o && o + n <= g.blockSize && p + n <= g.currentSize
    requires at == SECTOR * Entry(g, f, block) + SECTOR + o
    ensures Entry(g, f, block) == HOLE ==> Disk(g, f)[p..p + n] == Zeros(n)
    ensures Entry(g, f, block) != HOLE ==> Disk(g, f)[p..p + n] == Segment(f, at, n)
  {
    if Entry(g, f, block) == HOLE {
      DiskInHole(g, f, block, o, n, p);
    } else {
      DiskInFile(g, f, block, o, n, p, at);
    }
  }

  // The table entry of a block is in front of the footer.
  lemma TablePlace(g: Geometry, f: seq<Byte>, block: nat)
    requires WellFormed(g, f) && block < g.tableEntries
    ensures FrameOk(g, f) && g.tableOffset + 4 * block + 4 <= |f| - FOOTER_SIZE && |g.footer| == FOOTER_SIZE && g.blockSize > 0
  {
    hide Start;
  }

  lemma SectorOf(entry: nat, at: nat)
    requires SECTOR * entry == at
    ensures at / SECTOR == entry
  {
  }

  class VhdImage {
    var file: seq<Byte>
    const g: Geometry

    ghost predicate Valid()
      reads this
    {
      WellFormed(g, file)
    }

    constructor (file: seq<Byte>, g: Geometry)
      ensures this.file == file && this.g == g
    {
      this.file := file;
      this.g := g;
    }

    method PhysicalRead(size: nat, offset: nat) returns (d: seq<Byte>)
      ensures d == Segment(file, offset, size)
    {
      if offset + size <= |file| {
        return file[offset..offset + size];
      }
      d := if offset <= |file| then file[offset..] else [];
    }

    method PhysicalWrite(d: seq<Byte>, offset: nat) returns (written: nat)
      modifies this
      ensures written == |d| && file == Pwrite(old(file), offset, d)
    {
      file := Pwrite(file, offset, d);
      return |d|;
    }

    // The table entry of a block, if the table can be read there.
    method ReadTable(block: nat) returns (ok: bool, entry: nat)
      ensures ok <==> g.tableOffset + 4 * block + 4 <= |file|
      ensures ok ==> entry == Entry(g, file, block)
    {
      var at := g.tableOffset + 4 * block;
      var word := PhysicalRead(4, at);
      ok := |word| == 4;
      entry := 0;
      if ok {
        EntryRead(file, at);
        entry := BigEndian32At(word, 0);
      }
    }

    // The block of a disk position, and how far into the block it is.
    method Split(offset: nat) returns (block: nat, inBlock: nat)
      requires Valid() && offset <= g.currentSize
      ensures block < 0x1_0000_0000 && g.tableOffset + 4 * block + 4 <= |file|
      ensures offset == Start(g.blockSize, block) + inBlock && inBlock < g.blockSize
      ensures offset < g.currentSize ==> block < g.tableEntries
    {
      block, inBlock := SplitPosition(g.blockSize, offset);
      BlockInTable(g, file, offset, block, inBlock);
      block := block % 0x1_0000_0000;
    }

    // The part of vhd_read that deals with the first block of the range. The whole
    // range of the buffer is cleared first.
    method ReadFirst(buffer: array<Byte>, at: nat, size: nat, first: nat, block: nat, inBlock: nat, ghost offset: nat)
      returns (done: int)
      requires Valid() && at + size <= buffer.Length && offset + size <= g.currentSize
      requires g.tableOffset + 4 * block + 4 <= |file| && (offset < g.currentSize ==> block < g.tableEntries)
      requires offset == Start(g.blockSize, block) + inBlock && first <= size && inBlock + first <= g.blockSize
      modifies buffer
      ensures done == first
      ensures buffer[..] == Splice(old(buffer[..]), at, Disk(g, file)[offset..offset + first] + Zeros(size - first))
    {
      hide WellFormed, Disk, Start, Zeros, Splice, Segment;
      var ok, entry := ReadTable(block);
      if !ok {
        return -1;
      }
      var dataAt := SECTOR * entry + SECTOR + inBlock;
      Locate(g, file, block, inBlock, first, offset, entry, dataAt);
      ghost var had, part := buffer[..], Disk(g, file)[offset..offset + first];
      CopyInto(buffer, at, Zeros(size));
      if entry == HOLE {
        done := first;
      } else {
        done := CopyPart(buffer, at, first, dataAt, part);
      }
      SplicePart(had, at, part, size);
    }

    // The data part of the first block, which vhd_read reads twice.
    method CopyPart(buffer: array<Byte>, at: nat, size: nat, offset: nat, ghost part: seq<Byte>) returns (done: int)
      requires part == Segment(file, offset, size) && at + size <= buffer.Length
      modifies buffer
      ensures done == |part| && buffer[..] == Splice(old(buffer[..]), at, part)
    {
      var d := PhysicalRead(size, offset);
      d := PhysicalRead(size, offset);
      CopyInto(buffer, at, d);
      return |d|;
    }

    // vhd_read: the bytes of the disk at the range, or nothing (and 0) if the range
    // reaches past the end of the disk.
    method VhdRead(buffer: array<Byte>, at: nat, size: nat, offset: nat) returns (done: int)
      requires Valid() && at + size <= buffer.Length
      modifies buffer
      ensures offset + size > g.currentSize ==> done == 0 && buffer[..] == old(buffer[..])
      ensures offset + size <= g.currentSize ==>
                done == size && buffer[..] == Splice(old(buffer[..]), at, Disk(g, file)[offset..offset + size])
      decreases size
    {
      hide WellFormed, Disk, Start, Zeros, Splice;
      if offset + size > g.currentSize {
        return 0;
      }
      var block, inBlock := Split(offset);
      var first, second := size, 0;
      if first + inBlock > g.blockSize {
        first := g.blockSize - inBlock;
        second := size - first;
      }
      done := ReadFirst(buffer, at, size, first, block, inBlock, offset);
      if done == -1 {
        return -1;
      }
      ghost var disk := Disk(g, file);
      if second > 0 {
        ghost var had := buffer[..];
        var more := VhdRead(buffer, at + first, second, offset + first);
        if more == -1 {
          return -1;
        }
        ReadTail(old(buffer[..]), had, buffer[..], at, disk, offset, first, second);
        done := done + more;
      }
    }

    // A new block where the footer is: first its place goes into the table, then the
    // zeroed block and the footer are written.
    method Allocate(block: nat) returns (entry: nat)
      requires Valid() && block < g.tableEntries && Entry(g, file, block) == HOLE
      requires |file| + SECTOR + g.blockSize <= FILE_LIMIT
      modifies this
      ensures Allocates(g, old(file), file, block)
      ensures Valid() && entry == Entry(g, file, block) != HOLE
    {
      ghost var f := file;
      var end := |file| - FOOTER_SIZE;
      hide WellFormed, FrameOk, Disk, Allocates, BigEndian32, Splice, Zeros, Start, Entry, Pwrite;
      TablePlace(g, f, block);
      entry := end / SECTOR % 0x1_0000_0000;
      var tableAt := g.tableOffset + 4 * block;
      var written := PhysicalWrite(BigEndian32(entry), tableAt);
      PwriteInside(f, tableAt, BigEndian32(entry));
      ghost var f1 := file;
      written := PhysicalWrite(Zeros(SECTOR + g.blockSize) + g.footer, end);
      PwriteAtEnd(f1, end, Zeros(SECTOR + g.blockSize) + g.footer);
      AllocatedByWrites(g, f, f1, file, block, tableAt, end);
      AllocateBlock(g, f, file, block);
      AllocatedEntries(g, f, file, block);
      SectorOf(Entry(g, file, block), end);
    }

    // Writes the data and then the bitmap bytes of a part of an allocated block.
    method StorePart(d: seq<Byte>, inBlock: nat, entry: nat, ghost block: nat, ghost offset: nat) returns (done: nat)
      requires Valid() && block < g.tableEntries && entry == Entry(g, file, block) != HOLE
      requires offset == Start(g.blockSize, block) + inBlock
      requires 0 < |d| && inBlock + |d| <= g.blockSize && offset + |d| <= g.currentSize
      modifies this
      ensures done == |d|
      ensures Stored(g, old(file), file, block, inBlock, d, offset)
    {
      ghost var f := file;
      RegionInFile(g, f, block);
      var at := SECTOR * entry + SECTOR + inBlock;
      done := PhysicalWrite(d, at);
      ghost var f1 := file;
      var bits, bitsAt := Ones(ByteCount(|d|)), SECTOR * entry + FirstByte(inBlock);
      StaysInSector(g.blockSize, inBlock, |d|);
      var marked := PhysicalWrite(bits, bitsAt);
      hide WellFormed, Disk, Stored, FirstByte, ByteCount, Start, Splice;
      StoredAndMarked(g, f, f1, file, block, inBlock, d, offset, at, bits, bitsAt);
    }

    // The scan for a part that is all zero; zeros is how many words of memory are zero from
    // the part's start on. The loop goes on only where its position is not inside the part,
    // so in a part with bytes it does not run, and the part is never found empty. A part of
    // no bytes always is: the scan starts at its end.
    method ScanFindsEmpty(d: seq<Byte>, zeros: nat) returns (empty: bool)
      ensures empty <==> d == []
    {
      var words := (|d| + 7) / 8;
      var p := 0;
      while if p < words then false else p < zeros
        invariant words > 0 ==> p == 0
        decreases zeros - p
      {
        p := p + 1;
      }
      empty := p >= words;
    }

    // A write of no bytes: the table is read, and whatever it says, nothing is stored.
    method WriteNothing(block: nat, inBlock: nat) returns (done: int)
      requires Valid() && g.tableOffset + 4 * block + 4 <= |file|
      modifies this
      ensures done == 0 && file == old(file)
    {
      var ok, entry := ReadTable(block);
      if !ok {
        return -1;
      }
      if entry == HOLE {
        var zeros: nat := *;
        var empty := ScanFindsEmpty([], zeros);
        if empty {
          return 0;
        }
      }
      done := PhysicalWrite([], SECTOR * entry + SECTOR + inBlock);
      var marked := PhysicalWrite(Ones(ByteCount(0)), SECTOR * entry + FirstByte(inBlock));
    }

    // The part of vhd_write that deals with the first block of the range. A missing block
    // is always allocated, as the scan never takes the short way.
    method WriteFirst(d: seq<Byte>, block: nat, inBlock: nat, ghost offset: nat) returns (done: int)
      requires Valid() && 0 < |d| && offset + |d| <= g.currentSize && block < g.tableEntries
      requires offset == Start(g.blockSize, block) + inBlock && inBlock + |d| <= g.blockSize
      requires Entry(g, file, block) == HOLE ==> |file| + SECTOR + g.blockSize <= FILE_LIMIT
      modifies this
      ensures done == |d| && WroteBlocks(g, old(file), file, offset, d, block, block + 1)
      ensures Entry(g, file, block) != HOLE && Marked(g, file, block, inBlock, |d|)
    {
      var ok, entry := ReadTable(block);
      if !ok {
        return -1;
      }
      ghost var f := file;
      if entry == HOLE {
        var zeros: nat := *;
        var empty := ScanFindsEmpty(d, zeros);
        if empty {
          return |d|;
        }
        entry := Allocate(block);
        ghost var f1 := file;
        done := StorePart(d, inBlock, entry, block, offset);
        PartWroteNew(g, f, f1, file, block, inBlock, offset, d);
      } else {
        done := StorePart(d, inBlock, entry, block, offset);
        PartWrote(g, f, file, block, inBlock, offset, d);
      }
    }

    // vhd_write, for an image that stays below the size that table entries can address.
    method VhdWrite(d: seq<Byte>, offset: nat) returns (done: int)
      requires Valid()
      requires offset + |d| <= g.currentSize && d != [] ==> |file| + Growth(g, NewBlocks(g, file, offset, |d|)) <= FILE_LIMIT
      modifies this
      ensures offset + |d| > g.currentSize || d == [] ==> done == 0 && file == old(file)
      ensures offset + |d| <= g.currentSize && d != [] ==> done == |d| && Wrote(g, old(file), file, offset, d)
      ensures |file| >= 512 && file[|file| - 512..] == g.footer
      decreases |d|
    {
      hide WellFormed, Wrote, WroteBlocks, Disk, Start, NewBlocks, Growth, Marked;
      FooterLast(g, file);
      if offset + |d| > g.currentSize {
        return 0;
      }
      var block, inBlock := Split(offset);
      if d == [] {
        done := WriteNothing(block, inBlock);
        return;
      }
      ghost var f := file;
      RoomForFirst(g, f, offset, |d|, block, inBlock);
      if inBlock + |d| <= g.blockSize {
        done := WriteFirst(d, block, inBlock, offset);
        WroteOnePart(g, f, file, offset, d, block, inBlock);
      } else {
        done := WriteAcross(d, offset, block, inBlock, g.blockSize - inBlock);
      }
      WroteFooter(g, f, file, offset, d);
    }

    // The first part up to the end of its block, then the rest.
    method WriteAcross(d: seq<Byte>, offset: nat, block: nat, inBlock: nat, first: nat) returns (done: int)
      requires Valid() && 0 < first < |d| && offset + |d| <= g.currentSize && block < g.tableEntries
      requires offset == Start(g.blockSize, block) + inBlock && inBlock + first == g.blockSize
      requires Entry(g, file, block) == HOLE ==> |file| + SECTOR + g.blockSize <= FILE_LIMIT
      requires |file| + Growth(g, NewBlocks(g, file, offset, |d|)) <= FILE_LIMIT
      modifies this
      ensures done == |d| && Wrote(g, old(file), file, offset, d)
      decreases |d|, 0
    {
      hide Wrote, WroteBlocks, Disk, Start, NewBlocks, Growth, Marked;
      ghost var f := file;
      done := WriteFirst(d[..first], block, inBlock, offset);
      if done == -1 {
        return -1;
      }
      ghost var f1 := file;
      RoomForRest(g, f, f1, offset, d[..first], |d|, block, inBlock, offset + first);
      var more := VhdWrite(d[first..], offset + first);
      WroteParts(g, f, f1, file, offset, d, first, block, inBlock, offset + first);
      if more == -1 {
        return -1;
      }
      done := done + more;
    }
  }

  // The first part written over cleared bytes.
  lemma SplicePart(b: seq<Byte>, at: nat, d: seq<Byte>, size: nat)
    requires |d| <= size && at + size <= |b|
    ensures Splice(Splice(b, at, Zeros(size)), at, d) == Splice(b, at, d + Zeros(size - |d|))
    ensures d == Zeros(|d|) ==> Splice(b, at, Zeros(size)) == Splice(b, at, d + Zeros(size - |d|))
  {
    if d == Zeros(|d|) {
      assert Zeros(size) == d + Zeros(size - |d|);
    }
  }

  // Cleared bytes behind the first part are overwritten by the second part.
  lemma ReadTail(b: seq<Byte>, had: seq<Byte>, b': seq<Byte>, at: nat, disk: seq<Byte>, p: nat, first: nat, second: nat)
    requires at + first + second <= |b| && p + first + second <= |disk|
    requires had == Splice(b, at, disk[p..p + first] + Zeros(second))
    requires b' == Splice(had, at + first, disk[p + first..p + first + second])
    ensures b' == Splice(b, at, disk[p..p + (first + second)])
  {
    assert disk[p..p + first] + disk[p + first..p + first + second] == disk[p..p + (first + second)];
  }
}
