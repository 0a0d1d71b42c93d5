// The builder of a master boot record, which overwrites a buffer step by step.

module MbrBuild {
  import opened Bytes
  import opened Chs

  const MBR_SIZE: nat := 512
  const TABLE: nat := 446
  const ENTRY: nat := 16
  const QWORD: nat := 0x1_0000_0000_0000_0000

  // The members of PARTITION_INFORMATION that the builder uses, in bytes.
  datatype Partition = Partition(start: int, length: int, kind: Byte, boot: bool)

  datatype Error = NoError | InsufficientBuffer | InvalidParameter

  // A boot record without partitions: code that halts, an empty table and the signature.
  function EmptyRecord(): (d: seq<Byte>)
    ensures |d| == MBR_SIZE
  {
    [0xF4, 0xEB, 0xFD] + Zeros(507) + [0x55, 0xAA]
  }

  // Signed 64-bit division, which drops the fraction, seen as an unsigned number.
  function Sectors(bytes: int, sectorSize: nat): nat
    requires sectorSize > 0
  {
    (if bytes >= 0 then bytes / sectorSize else -(-bytes / sectorSize)) % QWORD
  }

  // The whole sectors in a number of bytes; those of a negative number are counted down from
  // 2^64.
  lemma WholeSectors(bytes: int, sectorSize: nat) returns (n: nat)
    requires sectorSize > 0 && bytes < QWORD && -bytes < QWORD
    ensures n * sectorSize <= (if bytes < 0 then -bytes else bytes) < n * sectorSize + sectorSize
    ensures Sectors(bytes, sectorSize) == if bytes >= 0 || n == 0 then n else QWORD - n
  {
    hide Sectors;
    n := Quotients(if bytes < 0 then -bytes else bytes, sectorSize);
    CountedDown(bytes, sectorSize, n);
  }

  lemma Quotients(size: nat, k: nat) returns (n: nat)
    requires k > 0
    ensures n == size / k && n * k <= size < n * k + k && n <= size
  {
    n := size / k;
    Divided(size, k);
    AtLeast(n, k);
  }

  lemma AtLeast(n: nat, k: nat)
    requires k > 0
    ensures n <= n * k
  {
  }

  lemma CountedDown(bytes: int, sectorSize: nat, n: nat)
    requires sectorSize > 0 && n < QWORD && n == (if bytes < 0 then -bytes else bytes) / sectorSize
    ensures Sectors(bytes, sectorSize) == if bytes >= 0 || n == 0 then n else QWORD - n
  {
  }

  function FirstSector(g: Geometry, p: Partition): nat
    requires g.bytesPerSector > 0
  {
    Sectors(p.start, g.bytesPerSector)
  }

  function SectorCount(g: Geometry, p: Partition): nat
    requires g.bytesPerSector > 0
  {
    Sectors(p.length, g.bytesPerSector)
  }

  function LastSector(g: Geometry, p: Partition): nat
    requires g.bytesPerSector > 0
  {
    (FirstSector(g, p) + SectorCount(g, p) - 1) % QWORD
  }

  // Start, size and end have no bits above the lower 32.
  predicate Storable(g: Geometry, p: Partition)
    requires g.bytesPerSector > 0
  {
    FirstSector(g, p) < DWORD && SectorCount(g, p) < DWORD && LastSector(g, p) < DWORD
  }

  // The sixteen bytes of a table entry (UEFI Specification, section 5.2.1).
  function EntryBytes(g: Geometry, p: Partition): (d: seq<Byte>)
    requires Usable(g) && g.bytesPerSector > 0 && Storable(g, p)
    ensures |d| == ENTRY
  {
    [if p.boot then 0x80 else 0] + LittleEndian(LbaToChs(g, FirstSector(g, p)), 3)
    + [p.kind] + LittleEndian(LbaToChs(g, LastSector(g, p)), 3)
    + LittleEndian(FirstSector(g, p), 4) + LittleEndian(SectorCount(g, p), 4)
  }

  predicate AllStorable(g: Geometry, ps: seq<Partition>) {
    ps != [] ==> Usable(g) && g.bytesPerSector > 0 && forall i :: 0 <= i < |ps| ==> Storable(g, ps[i])
  }

  // The record with the given partitions.
  function Record(g: Geometry, ps: seq<Partition>): (d: seq<Byte>)
    requires |ps| <= 4 && AllStorable(g, ps)
    ensures |d| == MBR_SIZE
  {
    if ps == [] then EmptyRecord()
    else Splice(Record(g, ps[..|ps| - 1]), TABLE + ENTRY * (|ps| - 1), EntryBytes(g, ps[|ps| - 1]))
  }

  // The number of partitions before the first one that cannot be stored.
  function Stored(g: Geometry, ps: seq<Partition>): (n: nat)
    requires ps != [] ==> Usable(g) && g.bytesPerSector > 0
    ensures n <= |ps| && (forall i :: 0 <= i < n ==> Storable(g, ps[i])) && (n < |ps| ==> !Storable(g, ps[n]))
  {
    if ps == [] || !Storable(g, ps[0]) then 0 else 1 + Stored(g, ps[1..])
  }

  // *(LPDWORD)(buffer + at) = value
  method StoreDword(buffer: array<Byte>, at: nat, value: nat)
    requires at + 4 <= buffer.Length && value < DWORD
    modifies buffer
    ensures buffer[..] == Splice(old(buffer[..]), at, LittleEndian(value, 4))
  {
    var second := value / 0x100;
    var third := second / 0x100;
    var fourth := third / 0x100;
    FourBytes(value, second, third, fourth);
    buffer[at], buffer[at + 1], buffer[at + 2], buffer[at + 3] := value % 0x100, second % 0x100, third % 0x100, fourth % 0x100;
  }

  lemma LowByte(n: nat, k: nat)
    ensures LittleEndian(n, k + 1) == [n % 0x100] + LittleEndian(n / 0x100, k)
  {
  }

  lemma FourBytes(a: nat, b: nat, c: nat, d: nat)
    requires b == a / 0x100 && c == b / 0x100 && d == c / 0x100
    ensures LittleEndian(a, 4) == [a % 0x100, b % 0x100, c % 0x100, d % 0x100]
    ensures LittleEndian(a, 3) == [a % 0x100, b % 0x100, c % 0x100]
  {
    LowByte(a, 3);
    LowByte(b, 2);
    LowByte(c, 1);
    LowByte(d, 0);
    LowByte(a, 2);
    LowByte(b, 1);
    LowByte(c, 0);
  }

  // A value below 2^24 stores its three bytes and a zero.
  lemma ThreeAndZero(value: nat)
    requires value < 0x100_0000
    ensures LittleEndian(value, 4) == LittleEndian(value, 3) + [0]
  {
    hide LittleEndian;
    var second := value / 0x100;
    var third := second / 0x100;
    FourBytes(value, second, third, third / 0x100);
    assert second < 0x1_0000 && third < 0x100;
  }

  // Both 4-byte stores of a CHS value reach into the field behind it; the later stores of
  // the type and of the start put those right.
  method StoreEntry(buffer: array<Byte>, at: nat, g: Geometry, p: Partition)
    requires at + ENTRY <= buffer.Length && buffer[at] == 0
    requires Usable(g) && g.bytesPerSector > 0 && Storable(g, p)
    modifies buffer
    ensures buffer[..] == Splice(old(buffer[..]), at, EntryBytes(g, p))
  {
    ghost var b := buffer[..];
    var start, count, end := FirstSector(g, p), SectorCount(g, p), LastSector(g, p);
    if p.boot {
      buffer[at] := 0x80;
    }
    ghost var b0 := buffer[..];
    StoreDword(buffer, at + 1, LbaToChs(g, start));
    ghost var b1 := buffer[..];
    buffer[at + 4] := p.kind;
    ghost var b2 := buffer[..];
    StoreDword(buffer, at + 5, LbaToChs(g, end));
    ghost var b3 := buffer[..];
    StoreDword(buffer, at + 8, start);
    ghost var b4 := buffer[..];
    StoreDword(buffer, at + 12, count);
    hide Sectors, LbaToChs, LittleEndian, Storable, Usable;
    ThreeAndZero(LbaToChs(g, start));
    ThreeAndZero(LbaToChs(g, end));
    Layered(b, b0, b1, b2, b3, b4, buffer[..], at, if p.boot then 0x80 else 0, LittleEndian(LbaToChs(g, start), 3), p.kind,
            LittleEndian(LbaToChs(g, end), 3), LittleEndian(start, 4), LittleEndian(count, 4));
  }

  lemma Layered(b: seq<Byte>, b0: seq<Byte>, b1: seq<Byte>, b2: seq<Byte>, b3: seq<Byte>, b4: seq<Byte>, b5: seq<Byte>, at: nat,
                boot: Byte, chs: seq<Byte>, kind: Byte, chsEnd: seq<Byte>, start: seq<Byte>, count: seq<Byte>)
    requires at + ENTRY <= |b| && |chs| == 3 && |chsEnd| == 3 && |start| == 4 && |count| == 4
    requires b0 == b[at := boot]
    requires b1 == Splice(b0, at + 1, chs + [0])
    requires b2 == b1[at + 4 := kind]
    requires b3 == Splice(b2, at + 5, chsEnd + [0])
    requires b4 == Splice(b3, at + 8, start)
    requires b5 == Splice(b4, at + 12, count)
    ensures b5 == Splice(b, at, [boot] + chs + [kind] + chsEnd + start + count)
  {
  }

  // FscryptDiskBuildMBR: the record of the partitions at the head of the buffer. When one
  // of them cannot be stored, those before it already are.
  method BuildMBR(g: Geometry, ps: seq<Partition>, mbr: array<Byte>) returns (ok: bool, error: Error)
    requires ps != [] ==> Usable(g) && g.bytesPerSector > 0
    modifies mbr
    ensures mbr.Length < MBR_SIZE ==> !ok && error == InsufficientBuffer && mbr[..] == old(mbr[..])
    ensures mbr.Length >= MBR_SIZE && |ps| > 4 ==> !ok && error == InvalidParameter && mbr[..] == old(mbr[..])
    ensures mbr.Length >= MBR_SIZE && |ps| <= 4 ==>
              var n := Stored(g, ps);
              && ok == (n == |ps|) && error == (if ok then NoError else InvalidParameter)
              && AllStorable(g, ps[..n]) && mbr[..] == Record(g, ps[..n]) + old(mbr[MBR_SIZE..])
  {
    if mbr.Length < MBR_SIZE {
      return false, InsufficientBuffer;
    }
    if |ps| > 4 {
      return false, InvalidParameter;
    }
    hide Storable, EntryBytes, EmptyRecord, FirstSector, SectorCount, LastSector, Splice;
    ghost var tail := mbr[MBR_SIZE..];
    CopyRecord(mbr);
    var i := 0;
    while i < |ps|
      invariant i <= |ps| && forall j :: 0 <= j < i ==> Storable(g, ps[j])
      invariant mbr[..] == Record(g, ps[..i]) + tail
    {
      FirstRefused(g, ps, i);
      var stored := AddEntry(g, ps, i, mbr, tail);
      if !stored {
        return false, InvalidParameter;
      }
      i := i + 1;
    }
    FirstRefused(g, ps, i);
    assert ps[..i] == ps;
    return true, NoError;
  }

  // Partition i, unless it reaches past what 32-bit sector numbers can say.
  method AddEntry(g: Geometry, ps: seq<Partition>, i: nat, mbr: array<Byte>, ghost tail: seq<Byte>) returns (stored: bool)
    requires i < |ps| <= 4 && Usable(g) && g.bytesPerSector > 0 && forall j :: 0 <= j < i ==> Storable(g, ps[j])
    requires mbr[..] == Record(g, ps[..i]) + tail
    modifies mbr
    ensures stored <==> Storable(g, ps[i])
    ensures mbr[..] == if stored then Record(g, ps[..i + 1]) + tail else old(mbr[..])
  {
    hide Storable, EntryBytes, EmptyRecord, FirstSector, SectorCount, LastSector, Record;
    StorableIff(g, ps[i]);
    var start, count, end := FirstSector(g, ps[i]), SectorCount(g, ps[i]), LastSector(g, ps[i]);
    if start >= DWORD || count >= DWORD || end >= DWORD {
      return false;
    }
    NextEntry(g, ps, i, tail);
    StoreEntry(mbr, TABLE + ENTRY * i, g, ps[i]);
    return true;
  }

  method CopyRecord(mbr: array<Byte>)
    requires mbr.Length >= MBR_SIZE
    modifies mbr
    ensures mbr[..] == EmptyRecord() + old(mbr[MBR_SIZE..])
  {
    CopyInto(mbr, 0, EmptyRecord());
  }

  lemma FirstRefused(g: Geometry, ps: seq<Partition>, i: nat)
    requires ps != [] ==> Usable(g) && g.bytesPerSector > 0
    requires i <= |ps| && forall j :: 0 <= j < i ==> Storable(g, ps[j])
    ensures i <= Stored(g, ps) && (i < |ps| && !Storable(g, ps[i]) ==> Stored(g, ps) == i)
  {
    hide Storable;
  }

  lemma StorableIff(g: Geometry, p: Partition)
    requires g.bytesPerSector > 0
    ensures Storable(g, p) <==> FirstSector(g, p) < DWORD && SectorCount(g, p) < DWORD && LastSector(g, p) < DWORD
  {
  }

  lemma NextEntry(g: Geometry, ps: seq<Partition>, i: nat, tail: seq<Byte>)
    requires i < |ps| <= 4 && Usable(g) && g.bytesPerSector > 0 && forall j :: 0 <= j <= i ==> Storable(g, ps[j])
    ensures var b := Record(g, ps[..i]) + tail;
            && b[TABLE + ENTRY * i] == 0
            && Splice(b, TABLE + ENTRY * i, EntryBytes(g, ps[i])) == Record(g, ps[..i + 1]) + tail
  {
    hide Storable, EntryBytes, EmptyRecord, Splice;
    var next, at := ps[..i + 1], TABLE + ENTRY * i;
    assert next[..|next| - 1] == ps[..i] && next[i] == ps[i];
    RestEmpty(g, ps[..i]);
    hide Record;
    RecordStep(g, next);
    SpliceLeft(Record(g, ps[..i]), tail, at, EntryBytes(g, ps[i]));
  }

  lemma RecordStep(g: Geometry, ps: seq<Partition>)
    requires ps != [] && |ps| <= 4 && AllStorable(g, ps)
    ensures var last := |ps| - 1; Record(g, ps) == Splice(Record(g, ps[..last]), TABLE + ENTRY * last, EntryBytes(g, ps[last]))
  {
  }

  // What is in the record besides the entries of its partitions.
  lemma {:induction false} RestEmpty(g: Geometry, ps: seq<Partition>)
    requires |ps| <= 4 && AllStorable(g, ps)
    ensures var d := Record(g, ps);
            && d[510] == 0x55 && d[511] == 0xAA
            && (forall k :: TABLE + ENTRY * |ps| <= k < 510 ==> d[k] == 0)
  {
    hide Storable, EntryBytes;
    if ps != [] {
      RestEmpty(g, ps[..|ps| - 1]);
    }
  }

  // Every entry is where it belongs.
  lemma {:induction false} EntryIn(g: Geometry, ps: seq<Partition>, i: nat)
    requires i < |ps| <= 4 && AllStorable(g, ps)
    ensures Record(g, ps)[TABLE + ENTRY * i..TABLE + ENTRY * i + ENTRY] == EntryBytes(g, ps[i])
  {
    hide Storable, EntryBytes;
    var last := |ps| - 1;
    var d, at := Record(g, ps[..last]), TABLE + ENTRY * i;
    if i < last {
      EntryIn(g, ps[..last], i);
      SpliceOutside(d, Record(g, ps), TABLE + ENTRY * last, EntryBytes(g, ps[last]), at, ENTRY);
    } else {
      SpliceInside(d, at, EntryBytes(g, ps[i]));
    }
  }

  // The address that three bytes of a table entry stand for: the head, the sector in the
  // lower six bits of the second byte, and a cylinder of ten bits.
  function ChsAddress(g: Geometry, head: Byte, middle: Byte, low: Byte): int {
    (((middle / 0x40 * 0x100 + low) * g.heads + head) * g.sectors + middle % 0x40 - 1) % DWORD
  }

  lemma ChsBytes(g: Geometry, lba: nat, b: seq<Byte>)
    requires Usable(g) && lba < DWORD && b == LittleEndian(LbaToChs(g, lba), 3)
    ensures if Fits(Cylinder(g, lba), Head(g, lba), Sector(g, lba)) then ChsAddress(g, b[0], b[1], b[2]) == lba else b == [254, 255, 255]
  {
    hide LittleEndian, LbaToChs, Cylinder, Head, Sector, Pack, ChsToLba, ChsAddress, ByteOf;
    var packed := LbaToChs(g, lba);
    PackedBytes(packed, b);
    ChsRoundTrip(g, lba);
    SameAddress(g, packed, b);
    if !Fits(Cylinder(g, lba), Head(g, lba), Sector(g, lba)) {
      LargestBytes(packed, b);
    }
  }

  lemma PackedBytes(packed: nat, b: seq<Byte>)
    requires b == LittleEndian(packed, 3)
    ensures b == [ByteOf(packed, 0), ByteOf(packed, 1), ByteOf(packed, 2)]
  {
    hide LittleEndian;
    FourBytes(packed, packed / 0x100, packed / 0x100 / 0x100, packed / 0x100 / 0x100 / 0x100);
    assert packed / 0x100 / 0x100 == packed / 0x1_0000;
  }

  lemma SameAddress(g: Geometry, packed: nat, b: seq<Byte>)
    requires b == [ByteOf(packed, 0), ByteOf(packed, 1), ByteOf(packed, 2)]
    ensures ChsAddress(g, b[0], b[1], b[2]) == ChsToLba(g, packed)
  {
    hide ByteOf;
  }

  lemma LargestBytes(packed: nat, b: seq<Byte>)
    requires packed == 0xFF_FFFE && b == [ByteOf(packed, 0), ByteOf(packed, 1), ByteOf(packed, 2)]
    ensures b == [254, 255, 255]
  {
  }

  // The two addresses in the table entry of a partition are those of its first and its last
  // sector, where cylinder, head and sector fit; where they do not, they are the largest
  // that there is.
  lemma EntryAddresses(g: Geometry, ps: seq<Partition>, i: nat)
    requires i < |ps| <= 4 && AllStorable(g, ps)
    ensures var d, at, p := Record(g, ps), TABLE + ENTRY * i, ps[i];
            var first := FirstSector(g, p);
            var last := (first + SectorCount(g, p) - 1) % QWORD;
            && (if Fits(Cylinder(g, first), Head(g, first), Sector(g, first)) then ChsAddress(g, d[at + 1], d[at + 2], d[at + 3]) == first
                else d[at + 1..at + 4] == [254, 255, 255])
            && (if Fits(Cylinder(g, last), Head(g, last), Sector(g, last)) then ChsAddress(g, d[at + 5], d[at + 6], d[at + 7]) == last
                else d[at + 5..at + 8] == [254, 255, 255])
  {
    hide Record, LittleEndian, LbaToChs, Sectors, Cylinder, Head, Sector, ChsAddress;
    EntryIn(g, ps, i);
    var d, at, p := Record(g, ps), TABLE + ENTRY * i, ps[i];
    var first, last := FirstSector(g, p), LastSector(g, p);
    EntryParts(g, p, d, at);
    ChsBytes(g, first, d[at + 1..at + 4]);
    ChsBytes(g, last, d[at + 5..at + 8]);
  }

  lemma EntryParts(g: Geometry, p: Partition, d: seq<Byte>, at: nat)
    requires Usable(g) && g.bytesPerSector > 0 && Storable(g, p) && at + ENTRY <= |d| && d[at..at + ENTRY] == EntryBytes(g, p)
    ensures d[at + 1..at + 4] == LittleEndian(LbaToChs(g, FirstSector(g, p)), 3)
    ensures d[at + 5..at + 8] == LittleEndian(LbaToChs(g, LastSector(g, p)), 3)
  {
    hide LittleEndian, LbaToChs, Sectors;
    var e := EntryBytes(g, p);
    SubSlice(d, at, at + ENTRY, 1, 4);
    SubSlice(d, at, at + ENTRY, 5, 8);
    assert e[1..4] == LittleEndian(LbaToChs(g, FirstSector(g, p)), 3);
    assert e[5..8] == LittleEndian(LbaToChs(g, LastSector(g, p)), 3);
  }
}
