// A byte array made of equally sized chunks, as a dynamic disk is made of blocks.

module Chunks {
  import opened Bytes

  // size * i, written so that the layout proofs stay linear.
  function Start(size: nat, i: nat): (p: nat) {
    if i == 0 then 0 else Start(size, i - 1) + size
  }

  lemma {:induction false} StartIsProduct(size: nat, i: nat)
    ensures Start(size, i) == size * i
  {
    if i > 0 {
      StartIsProduct(size, i - 1);
      assert size * i == size * (i - 1) + size;
    }
  }

  lemma {:induction false} StartMonotone(size: nat, i: nat, j: nat)
    requires i <= j
    ensures Start(size, i) <= Start(size, j)
    ensures i < j ==> Start(size, i) + size <= Start(size, j)
  {
    if i < j {
      StartMonotone(size, i, j - 1);
    }
  }

  ghost predicate Uniform(chunks: seq<seq<Byte>>, size: nat) {
    forall i :: 0 <= i < |chunks| ==> |chunks[i]| == size
  }

  // The first n chunks, one after the other.
  ghost function Concat(chunks: seq<seq<Byte>>, size: nat, n: nat): (d: seq<Byte>)
    requires Uniform(chunks, size) && n <= |chunks|
    ensures |d| == Start(size, n)
  {
    if n == 0 then [] else Concat(chunks, size, n - 1) + chunks[n - 1]
  }

  lemma {:induction false} ConcatAt(chunks: seq<seq<Byte>>, size: nat, i: nat, n: nat)
    requires Uniform(chunks, size) && i < n <= |chunks|
    ensures Start(size, i) + size <= Start(size, n)
    ensures Concat(chunks, size, n)[Start(size, i)..Start(size, i) + size] == chunks[i]
  {
    if i < n - 1 {
      ConcatAt(chunks, size, i, n - 1);
      SliceLeft(Concat(chunks, size, n - 1), chunks[n - 1], Start(size, i), Start(size, i) + size);
    }
  }

  // Only the first n chunks count.
  lemma {:induction false} ConcatPrefix(chunks: seq<seq<Byte>>, chunks': seq<seq<Byte>>, size: nat, n: nat)
    requires Uniform(chunks, size) && Uniform(chunks', size) && n <= |chunks| && n <= |chunks'|
    requires forall k :: 0 <= k < n ==> chunks'[k] == chunks[k]
    ensures Concat(chunks', size, n) == Concat(chunks, size, n)
  {
    if n > 0 {
      ConcatPrefix(chunks, chunks', size, n - 1);
    }
  }

  // Overwriting inside one chunk is overwriting at the corresponding place of the whole.
  lemma {:induction false} ConcatSpliced(chunks: seq<seq<Byte>>, chunks': seq<seq<Byte>>, size: nat, i: nat, o: nat,
                                         d: seq<Byte>, n: nat)
    requires Uniform(chunks, size) && i < n <= |chunks| && o + |d| <= size
    requires chunks' == chunks[i := Splice(chunks[i], o, d)]
    ensures Uniform(chunks', size) && Start(size, i) + size <= Start(size, n)
    ensures Concat(chunks', size, n) == Splice(Concat(chunks, size, n), Start(size, i) + o, d)
  {
    if i == n - 1 {
      ConcatPrefix(chunks, chunks', size, n - 1);
      SpliceRight(Concat(chunks, size, n - 1), chunks[i], o, d);
    } else {
      ConcatSpliced(chunks, chunks', size, i, o, d, n - 1);
      SpliceLeft(Concat(chunks, size, n - 1), chunks[n - 1], Start(size, i) + o, d);
    }
  }

  // The first length bytes of all chunks.
  ghost function Truncated(chunks: seq<seq<Byte>>, size: nat, length: nat): (d: seq<Byte>)
    requires Uniform(chunks, size) && length <= Start(size, |chunks|)
    ensures |d| == length
  {
    Concat(chunks, size, |chunks|)[..length]
  }

  lemma TruncatedSpliced(chunks: seq<seq<Byte>>, chunks': seq<seq<Byte>>, size: nat, length: nat, i: nat, o: nat,
                         d: seq<Byte>, p: nat)
    requires Uniform(chunks, size) && length <= Start(size, |chunks|)
    requires i < |chunks| && p == Start(size, i) + o && o + |d| <= size && p + |d| <= length
    requires chunks' == chunks[i := Splice(chunks[i], o, d)]
    ensures Uniform(chunks', size)
    ensures Truncated(chunks', size, length) == Splice(Truncated(chunks, size, length), p, d)
  {
    ConcatSpliced(chunks, chunks', size, i, o, d, |chunks|);
    SplicePrefix(Concat(chunks, size, |chunks|), length, p, d);
  }

  lemma TruncatedAt(chunks: seq<seq<Byte>>, size: nat, length: nat, i: nat, o: nat, n: nat, p: nat)
    requires Uniform(chunks, size) && length <= Start(size, |chunks|)
    requires i < |chunks| && p == Start(size, i) + o && o + n <= size && p + n <= length
    ensures Truncated(chunks, size, length)[p..p + n] == chunks[i][o..o + n]
  {
    hide Truncated;
    ConcatAt(chunks, size, i, |chunks|);
    TruncatedSlice(chunks, size, length, p, n);
    NestedSlice(Concat(chunks, size, |chunks|), Start(size, i), size, o, n, p);
  }

  lemma TruncatedSlice(chunks: seq<seq<Byte>>, size: nat, length: nat, p: nat, n: nat)
    requires Uniform(chunks, size) && length <= Start(size, |chunks|) && p + n <= length
    ensures Truncated(chunks, size, length)[p..p + n] == Concat(chunks, size, |chunks|)[p..p + n]
  {
    hide Concat;
    SubSlice(Concat(chunks, size, |chunks|), 0, length, p, p + n);
  }

  lemma NestedSlice(whole: seq<Byte>, start: nat, size: nat, o: nat, n: nat, p: nat)
    requires start + size <= |whole| && o + n <= size && p == start + o
    ensures whole[p..p + n] == whole[start..start + size][o..o + n]
  {
    SubSlice(whole, start, start + size, o, o + n);
  }
}
