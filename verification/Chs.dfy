// Conversion between logical block addresses and packed cylinder-head-sector values.

module Chs {
  import opened Basics

  const DWORD: nat := 0x1_0000_0000

  // The fields of DISK_GEOMETRY that are used here, each a 32-bit number.
  datatype Geometry = Geometry(heads: nat, sectors: nat, bytesPerSector: nat)

  // heads_per_cylinder * sectors_per_track, as computed in 32 bits.
  function CylinderSize(g: Geometry): nat {
    g.heads * g.sectors % DWORD
  }

  // What the divisions demand of a geometry.
  predicate Usable(g: Geometry) {
    g.sectors > 0 && CylinderSize(g) > 0
  }

  function Cylinder(g: Geometry, lba: nat): nat
    requires Usable(g)
  {
    lba / CylinderSize(g)
  }

  function Head(g: Geometry, lba: nat): nat
    requires Usable(g)
  {
    lba % CylinderSize(g) / g.sectors
  }

  function Sector(g: Geometry, lba: nat): nat
    requires Usable(g)
  {
    lba % CylinderSize(g) % g.sectors + 1
  }

  predicate Fits(cylinder: nat, head: nat, sector: nat) {
    cylinder < 1024 && head < 256 && sector < 64
  }

  // The bit operations of C on numbers, bit by bit.
  function Or(a: nat, b: nat): nat
    decreases a
  {
    if a == 0 then b else if b == 0 then a
    else (if a % 2 == 1 || b % 2 == 1 then 1 else 0) + 2 * Or(a / 2, b / 2)
  }

  function And(a: nat, b: nat): nat
    decreases a
  {
    if a == 0 || b == 0 then 0 else (if a % 2 == 1 && b % 2 == 1 then 1 else 0) + 2 * And(a / 2, b / 2)
  }

  function ShiftLeft(a: nat, k: nat): nat {
    if k == 0 then a else 2 * ShiftLeft(a, k - 1)
  }

  function ShiftRight(a: nat, k: nat): nat {
    if k == 0 then a else ShiftRight(a / 2, k - 1)
  }

  // The value that is returned: the head, then the sector with the two high bits of the
  // cylinder above it, then the low byte of the cylinder.
  function Pack(cylinder: nat, head: nat, sector: nat): (p: nat)
    requires Fits(cylinder, head, sector)
    ensures p < 0x100_0000
  {
    head + 0x100 * (sector + 0x40 * (cylinder / 0x100)) + 0x1_0000 * (cylinder % 0x100)
  }

  lemma {:induction false} OrIsSum(a: nat, b: nat)
    requires And(a, b) == 0
    ensures Or(a, b) == a + b
    decreases a
  {
    if a != 0 && b != 0 {
      OrIsSum(a / 2, b / 2);
    }
  }

  lemma {:induction false} AndSame(a: nat, b: nat)
    ensures And(a, b) == And(b, a)
    decreases a
  {
    if a != 0 && b != 0 {
      AndSame(a / 2, b / 2);
    }
  }

  lemma {:induction false} AndShifted(a: nat, m: nat, k: nat)
    ensures And(a, ShiftLeft(m, k)) == ShiftLeft(And(ShiftRight(a, k), m), k)
    decreases k
  {
    if k > 0 {
      AndDouble(a, ShiftLeft(m, k - 1));
      AndShifted(a / 2, m, k - 1);
    }
  }

  lemma AndDouble(a: nat, b: nat)
    ensures And(a, 2 * b) == 2 * And(a / 2, b)
  {
    if a != 0 && b != 0 {
      assert 2 * b % 2 == 0 && 2 * b / 2 == b;
    }
  }

  // The lowest k bits, and the mask for them.
  function Low(a: nat, k: nat): nat {
    if k == 0 then 0 else a % 2 + 2 * Low(a / 2, k - 1)
  }

  function Ones(k: nat): nat {
    if k == 0 then 0 else 1 + 2 * Ones(k - 1)
  }

  lemma {:induction false} AndOnes(a: nat, k: nat)
    ensures And(a, Ones(k)) == Low(a, k) && a == Low(a, k) + ShiftLeft(ShiftRight(a, k), k) && Low(a, k) <= Ones(k)
    decreases k
  {
    if k > 0 {
      AndOnes(a / 2, k - 1);
    }
  }

  lemma {:induction false} ShiftIs(a: nat, k: nat)
    ensures ShiftLeft(a, k) == PowerOfTwo(k) * a
  {
    if k > 0 {
      ShiftIs(a, k - 1);
    }
  }

  lemma {:induction false} OnesBelow(k: nat)
    ensures Ones(k) + 1 == ShiftLeft(1, k)
  {
    if k > 0 {
      OnesBelow(k - 1);
    }
  }

  // The masks leave the low byte of the cylinder and its two high bits.
  lemma CylinderBits(cylinder: nat)
    requires cylinder < 1024
    ensures And(cylinder, 0xFF) == cylinder % 0x100 && And(cylinder, 0x300) == 0x100 * (cylinder / 0x100)
  {
    hide And, Low, Ones, ShiftLeft, ShiftRight;
    var high := ShiftRight(cylinder, 8);
    Split(cylinder, 8, 0x100);
    ShiftIs(3, 8);
    AndShifted(cylinder, 3, 8);
    Split(high, 2, 4);
    ShiftIs(high, 8);
    assert PowerOfTwo(8) == 0x100;
  }

  // A number and its k lowest bits, for a length that is a power of two.
  lemma Split(a: nat, k: nat, length: nat)
    requires length == PowerOfTwo(k)
    ensures ShiftRight(a, k) == a / length && And(a, length - 1) == a % length
  {
    hide And, PowerOfTwo, ShiftLeft, ShiftRight, Ones, Low;
    var up := ShiftRight(a, k);
    AndOnes(a, k);
    ShiftIs(up, k);
    ShiftIs(1, k);
    OnesBelow(k);
    Quotient(a, length, up, Low(a, k));
  }

  lemma Quotient(a: nat, b: nat, q: nat, r: nat)
    requires a == r + b * q && r < b
    ensures a / b == q && a % b == r
  {
    if a / b < q {
      Grows(b, a / b + 1, q);
    } else if a / b > q {
      Grows(b, q + 1, a / b);
    }
    assert b * (a / b) + a % b == a;
  }

  lemma Grows(b: nat, p: nat, q: nat)
    requires p <= q
    ensures b * p <= b * q
  {
  }

  // A field above k bits has no bit in common with one of k bits.
  lemma Apart(a: nat, b: nat, k: nat)
    requires ShiftRight(a, k) == 0
    ensures And(a, ShiftLeft(b, k)) == 0
  {
    AndShifted(a, b, k);
    NothingShifted(k);
  }

  lemma {:induction false} NothingShifted(k: nat)
    ensures ShiftLeft(0, k) == 0
  {
    if k > 0 {
      NothingShifted(k - 1);
    }
  }

  // Below its own length a number shifts to nothing.
  lemma Short(a: nat, k: nat)
    requires a < ShiftLeft(1, k)
    ensures ShiftRight(a, k) == 0
    decreases k
  {
    if k > 0 {
      Short(a / 2, k - 1);
    }
  }

  // The shifted fields have no bit in common, so or-ing them makes the packed value.
  lemma PackIsOr(cylinder: nat, head: nat, sector: nat)
    requires Fits(cylinder, head, sector)
    ensures Or(Or(Or(head, ShiftLeft(sector, 8)), ShiftLeft(And(cylinder, 0xFF), 16)), ShiftLeft(And(cylinder, 0x300), 6))
         == Pack(cylinder, head, sector)
  {
    hide Or, And, ShiftLeft;
    CylinderBits(cylinder);
    FieldsOr(head, sector, cylinder % 0x100, cylinder / 0x100);
  }

  lemma FieldsOr(head: nat, sector: nat, low: nat, high: nat)
    requires head < 256 && sector < 64 && low < 256 && high < 4
    ensures Or(Or(Or(head, ShiftLeft(sector, 8)), ShiftLeft(low, 16)), ShiftLeft(0x100 * high, 6))
         == head + 0x100 * sector + 0x1_0000 * low + 0x4000 * high
  {
    hide Or, And, ShiftLeft, ShiftRight;
    assert PowerOfTwo(6) == 0x40 && PowerOfTwo(8) == 0x100 && PowerOfTwo(16) == 0x1_0000;
    hide PowerOfTwo;
    ShiftIs(sector, 8);
    ShiftIs(1, 8);
    Short(head, 8);
    Apart(head, sector, 8);
    OrIsSum(head, 0x100 * sector);
    var first := head + 0x100 * sector;
    ShiftIs(low, 16);
    ShiftIs(1, 16);
    Short(first, 16);
    Apart(first, low, 16);
    OrIsSum(first, 0x1_0000 * low);
    ShiftIs(0x100 * high, 6);
    Between(first, low, high);
    OrIsSum(first + 0x1_0000 * low, 0x4000 * high);
  }

  lemma Between(first: nat, low: nat, high: nat)
    requires first < 0x4000 && high < 4
    ensures And(first + 0x1_0000 * low, 0x4000 * high) == 0
  {
    hide Or, And, ShiftLeft, ShiftRight;
    var a := first + 0x1_0000 * low;
    assert PowerOfTwo(2) == 4 && PowerOfTwo(14) == 0x4000;
    hide PowerOfTwo;
    ShiftIs(high, 14);
    AndShifted(a, high, 14);
    Split(a, 14, 0x4000);
    AndSame(4 * low, high);
    ShiftIs(low, 2);
    ShiftIs(1, 2);
    Short(high, 2);
    Apart(high, low, 2);
    NothingShifted(14);
  }

  function LbaToChs(g: Geometry, lba: nat): (packed: nat)
    requires Usable(g)
    ensures packed < 0x100_0000
  {
    var cylinder, head, sector := Cylinder(g, lba), Head(g, lba), Sector(g, lba);
    if Fits(cylinder, head, sector) then Pack(cylinder, head, sector) else Pack(1023, 254, 63)
  }

  // The fields of three packed bytes.
  function ByteOf(packed: nat, k: nat): (b: nat)
    requires k < 3
    ensures b < 0x100
  {
    (if k == 0 then packed else if k == 1 then packed / 0x100 else packed / 0x1_0000) % 0x100
  }

  function ChsToLba(g: Geometry, packed: nat): nat {
    var cylinder := ByteOf(packed, 1) / 0x40 * 0x100 + ByteOf(packed, 2);
    var head := ByteOf(packed, 0);
    var sector := ByteOf(packed, 1) % 0x40;
    ((cylinder * g.heads + head) * g.sectors + sector - 1) % DWORD
  }

  lemma Unpacked(cylinder: nat, head: nat, sector: nat)
    requires Fits(cylinder, head, sector)
    ensures var p := Pack(cylinder, head, sector);
            && ByteOf(p, 1) / 0x40 * 0x100 + ByteOf(p, 2) == cylinder
            && ByteOf(p, 0) == head && ByteOf(p, 1) % 0x40 == sector
  {
    var middle := sector + 0x40 * (cylinder / 0x100);
    assert middle < 0x100 && middle / 0x40 == cylinder / 0x100 && middle % 0x40 == sector;
    ThreeBytes(head, middle, cylinder % 0x100);
  }

  lemma ThreeBytes(a: nat, b: nat, c: nat)
    requires a < 0x100 && b < 0x100 && c < 0x100
    ensures var p := a + 0x100 * b + 0x1_0000 * c; ByteOf(p, 0) == a && ByteOf(p, 1) == b && ByteOf(p, 2) == c
  {
  }

  // The address that cylinder, head and sector stand for; the product of heads and
  // sectors may leave 32 bits.
  lemma Recombined(g: Geometry, lba: nat)
    requires Usable(g) && lba < DWORD
    ensures ((Cylinder(g, lba) * g.heads + Head(g, lba)) * g.sectors + Sector(g, lba) - 1) % DWORD == lba
  {
    var size, c := CylinderSize(g), Cylinder(g, lba);
    var temp := lba % size;
    var wrapped := g.heads * g.sectors / DWORD;
    Divided(lba, size);
    Divided(temp, g.sectors);
    Divided(g.heads * g.sectors, DWORD);
    Spread(c, g.heads, Head(g, lba), g.sectors);
    assert Head(g, lba) * g.sectors + Sector(g, lba) - 1 == temp;
    Whole(c, g.heads * g.sectors, size, wrapped);
    Wraps(lba, c * wrapped);
  }

  lemma Divided(a: nat, b: nat)
    requires b > 0
    ensures a == a / b * b + a % b
  {
  }

  lemma Spread(c: nat, t: nat, h: nat, s: nat)
    ensures (c * t + h) * s == c * (t * s) + h * s
  {
  }

  lemma Whole(c: nat, product: nat, size: nat, wrapped: nat)
    requires product == wrapped * DWORD + size
    ensures c * product == c * wrapped * DWORD + c * size
  {
  }

  lemma Wraps(lba: nat, k: nat)
    requires lba < DWORD
    ensures (k * DWORD + lba) % DWORD == lba
  {
  }

  // To packed form and back is the identity where the fields fit, also for geometries
  // whose cylinder size wraps; elsewhere the packed value is the largest one.
  lemma ChsRoundTrip(g: Geometry, lba: nat)
    requires Usable(g) && lba < DWORD
    ensures Fits(Cylinder(g, lba), Head(g, lba), Sector(g, lba)) ==> ChsToLba(g, LbaToChs(g, lba)) == lba
    ensures !Fits(Cylinder(g, lba), Head(g, lba), Sector(g, lba)) ==> LbaToChs(g, lba) == Pack(1023, 254, 63) == 0xFF_FFFE
  {
    if Fits(Cylinder(g, lba), Head(g, lba), Sector(g, lba)) {
      Unpacked(Cylinder(g, lba), Head(g, lba), Sector(g, lba));
      Recombined(g, lba);
    }
  }
}
