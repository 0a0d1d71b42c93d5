// Byte sequences: the overwrite that every write in this project performs, and
// the fixed-width integer encodings used on disk and on the wire.

module Bytes {

  type Byte = x: int | 0 <= x < 256

  function Zeros(n: nat): (d: seq<Byte>)
    ensures |d| == n && forall i :: 0 <= i < n ==> d[i] == 0
  {
    seq(n, _ => 0)
  }

  // s with d written over it, starting at position at.
  function Splice<T>(s: seq<T>, at: nat, d: seq<T>): (r: seq<T>)
    requires at + |d| <= |s|
    ensures |r| == |s|
    ensures forall i :: 0 <= i < |s| ==> r[i] == if at <= i < at + |d| then d[i - at] else s[i]
  {
    s[..at] + d + s[at + |d|..]
  }

  // The same in place.
  method CopyInto(buffer: array<Byte>, at: nat, d: seq<Byte>)
    requires at + |d| <= buffer.Length
    modifies buffer
    ensures buffer[..] == Splice(old(buffer[..]), at, d)
  {
    forall i | 0 <= i < |d| {
      buffer[at + i] := d[i];
    }
  }

  // Two adjacent overwrites are one overwrite.
  lemma SpliceAppend<T>(s: seq<T>, at: nat, d: seq<T>, e: seq<T>)
    requires at + |d| + |e| <= |s|
    ensures Splice(Splice(s, at, d), at + |d|, e) == Splice(s, at, d + e)
  {
  }

  // An overwrite inside the first half of a concatenation leaves the second half alone.
  lemma SpliceLeft<T>(s: seq<T>, t: seq<T>, at: nat, d: seq<T>)
    requires at + |d| <= |s|
    ensures Splice(s + t, at, d) == Splice(s, at, d) + t
  {
  }

  lemma SpliceRight<T>(s: seq<T>, t: seq<T>, at: nat, d: seq<T>)
    requires at + |d| <= |t|
    ensures Splice(s + t, |s| + at, d) == s + Splice(t, at, d)
  {
  }

  lemma SplicePrefix<T>(s: seq<T>, n: nat, at: nat, d: seq<T>)
    requires at + |d| <= n <= |s|
    ensures Splice(s, at, d)[..n] == Splice(s[..n], at, d)
  {
  }

  lemma SpliceInside<T>(s: seq<T>, at: nat, d: seq<T>)
    requires at + |d| <= |s|
    ensures Splice(s, at, d)[at..at + |d|] == d
  {
  }

  // An overwrite leaves every range that it does not meet.
  lemma SpliceOutside<T>(s: seq<T>, s': seq<T>, at: nat, d: seq<T>, from: nat, n: nat)
    requires at + |d| <= |s| && from + n <= |s| && s' == Splice(s, at, d)
    requires at + |d| <= from || from + n <= at
    ensures s'[from..from + n] == s[from..from + n]
  {
  }

  // A slice of the first half of a concatenation.
  lemma SliceLeft<T>(s: seq<T>, t: seq<T>, i: nat, j: nat)
    requires i <= j <= |s|
    ensures (s + t)[i..j] == s[i..j]
  {
  }

  lemma SubSlice<T>(s: seq<T>, i: nat, j: nat, a: nat, b: nat)
    requires i <= j && a <= b <= j - i && j <= |s|
    ensures s[i..j][a..b] == s[i + a..i + b]
  {
    var t := s[i..j];
    assert |t| == j - i;
    forall k | 0 <= k < b - a ensures t[a..b][k] == s[i + a..i + b][k] {
      assert t[a..b][k] == t[a + k];
    }
  }

  // Little-endian integers of k bytes.
  function Bound(k: nat): (n: nat)
    ensures n > 0
  {
    if k == 0 then 1 else 256 * Bound(k - 1)
  }

  function LittleEndian(n: nat, k: nat): (d: seq<Byte>)
    ensures |d| == k
  {
    if k == 0 then [] else [n % 256] + LittleEndian(n / 256, k - 1)
  }

  function FromLittleEndian(d: seq<Byte>): nat {
    if d == [] then 0 else d[0] + 256 * FromLittleEndian(d[1..])
  }

  lemma {:induction false} LittleEndianRoundTrip(n: nat, k: nat)
    requires n < Bound(k)
    ensures FromLittleEndian(LittleEndian(n, k)) == n
  {
    if k > 0 {
      LittleEndianRoundTrip(n / 256, k - 1);
      assert LittleEndian(n, k)[1..] == LittleEndian(n / 256, k - 1);
    }
  }

  const BOUND64: nat := 0x1_0000_0000_0000_0000

  lemma Bound64()
    ensures Bound(8) == BOUND64
  {
    assert Bound(2) == 0x1_0000;
    assert Bound(4) == 0x1_0000_0000;
    assert Bound(6) == 0x1_0000_0000_0000;
  }

  function LittleEndian64(n: nat): (d: seq<Byte>)
    requires n < BOUND64
    ensures |d| == 8 && FromLittleEndian(d) == n
  {
    Bound64();
    LittleEndianRoundTrip(n, 8);
    LittleEndian(n, 8)
  }

  lemma {:induction false} FromLittleEndianFits(d: seq<Byte>)
    ensures FromLittleEndian(d) < Bound(|d|)
  {
    if d != [] {
      FromLittleEndianFits(d[1..]);
    }
  }

  // The 64-bit integer at position at of a stream.
  function Word(s: seq<Byte>, at: nat): (n: nat)
    requires at + 8 <= |s|
    ensures n < BOUND64
  {
    Bound64();
    FromLittleEndianFits(s[at..at + 8]);
    FromLittleEndian(s[at..at + 8])
  }
}
