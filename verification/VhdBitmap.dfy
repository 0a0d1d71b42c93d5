// The sector bitmap in front of each block's data, as vhd_write updates it: whole bytes
// of set bits, starting at the byte of the first written sector.

module VhdBitmap {
  import opened VhdLayout

  const SECTORS_PER_BYTE: nat := 8

  // First bitmap byte for data written at position a of a block.
  function FirstByte(a: nat): nat {
    a / SECTOR / SECTORS_PER_BYTE
  }

  // Number of bitmap bytes set for n written bytes.
  function ByteCount(n: nat): nat {
    ((n + SECTOR - 1) / SECTOR + SECTORS_PER_BYTE - 1) / SECTORS_PER_BYTE
  }

  // Sector s of a block has its bit in byte s / 8 of the bitmap.
  ghost predicate Covers(a: nat, n: nat)
    requires n > 0
  {
    forall s :: a / SECTOR <= s <= (a + n - 1) / SECTOR ==> FirstByte(a) <= s / SECTORS_PER_BYTE < FirstByte(a) + ByteCount(n)
  }

  lemma Quotients(a: nat, n: nat)
    requires n > 0
    ensures FirstByte(a) == a / 4096
    ensures (a + n - 1) / SECTOR / SECTORS_PER_BYTE == (a + n - 1) / 4096
    ensures ByteCount(n) == (n - 1) / 4096 + 1
  {
  }

  // The update stays inside the one-sector bitmap, whatever part of a block of up to
  // 2 MiB is written.
  lemma StaysInSector(size: nat, a: nat, n: nat)
    requires size % 4096 == 0 && size <= 0x20_0000
    requires n > 0 && a + n <= size
    ensures FirstByte(a) + ByteCount(n) <= SECTOR
  {
    Quotients(a, n);
  }

  // The update marks every sector that was written if and only if the two remainders do
  // not carry over into another bitmap byte.
  lemma CoversExactlyWhen(a: nat, n: nat)
    requires n > 0
    ensures Covers(a, n) <==> a % 4096 + (n - 1) % 4096 < 4096
  {
    Quotients(a, n);
    var last := (a + n - 1) / SECTOR;
    Carry(a, n - 1);
    if a % 4096 + (n - 1) % 4096 < 4096 {
      forall s | a / SECTOR <= s <= last
        ensures FirstByte(a) <= s / SECTORS_PER_BYTE < FirstByte(a) + ByteCount(n)
      {
        assert s / SECTORS_PER_BYTE <= last / SECTORS_PER_BYTE;
      }
    } else {
      assert a / SECTOR <= last && !(last / SECTORS_PER_BYTE < FirstByte(a) + ByteCount(n));
    }
  }

  lemma Carry(a: nat, m: nat)
    ensures (a + m) / 4096 == a / 4096 + m / 4096 + (if a % 4096 + m % 4096 < 4096 then 0 else 1)
  {
  }

  // In particular a write that starts on a 4096-byte boundary is always marked in full.
  lemma AlignedIsCovered(a: nat, n: nat)
    requires n > 0 && a % 4096 == 0
    ensures Covers(a, n)
  {
    CoversExactlyWhen(a, n);
  }

  // Two sectors written at the end of one bitmap byte: the second stays unmarked.
  lemma UnmarkedSector()
    ensures !Covers(3584, 1024)
  {
    CoversExactlyWhen(3584, 1024);
  }
}
