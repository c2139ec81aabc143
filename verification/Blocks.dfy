/** Cutting a byte sequence into blocks of a fixed size, the last one possibly shorter. */
module Blocks {
  import opened Bytes

  /** Where block `i` of `size` bytes starts: after the blocks before it. */
  function Cut(size: nat, f: pos, i: nat): (c: nat)
    ensures c <= size
  {
    if i == 0 then 0 else Min(Cut(size, f, i - 1) + f, size)
  }

  function Block<T>(s: seq<T>, f: pos, i: nat): seq<T> { s[Cut(|s|, f, i)..Cut(|s|, f, i + 1)] }

  lemma {:induction false} CutIsProduct(size: nat, f: pos, i: nat)
    ensures Cut(size, f, i) == Min(i * f, size)
  {
    if i > 0 {
      CutIsProduct(size, f, i - 1);
      assert i * f == (i - 1) * f + f;
    }
  }

  lemma {:induction false} CutsMonotone(size: nat, f: pos, i: nat, j: nat)
    requires i <= j
    ensures Cut(size, f, i) <= Cut(size, f, j)
  {
    if i < j {
      CutsMonotone(size, f, i, j - 1);
    }
  }

  /** The block as `subarray` and `slice` name it. */
  lemma BlockIsSlice<T>(s: seq<T>, f: pos, i: nat)
    ensures Block(s, f, i) == Clamp(s, i * f, (i + 1) * f)
  {
    CutIsProduct(|s|, f, i);
    CutIsProduct(|s|, f, i + 1);
    MulMonotone(i, i + 1, f);
  }

  /** A block that starts inside the bytes: its start and its length, as the worker and the reader compute them. */
  lemma CutInside(size: nat, f: pos, i: nat)
    requires i * f < size
    ensures Cut(size, f, i) == i * f && Cut(size, f, i + 1) == i * f + Min(f, size - i * f)
  {
    CutIsProduct(size, f, i);
  }

  /** A block inside a run of whole blocks, by its offset in the run. */
  lemma BlockOfRun<T>(s: seq<T>, f: pos, first: nat, last: nat, i: nat, run: seq<T>, at: nat, to: nat)
    requires first <= i <= last && Cut(|s|, f, first) <= Cut(|s|, f, last + 1)
    requires run == s[Cut(|s|, f, first)..Cut(|s|, f, last + 1)]
    requires at == Cut(|s|, f, i) - Cut(|s|, f, first) && to == Cut(|s|, f, i + 1) - Cut(|s|, f, first)
    ensures Clamp(run, at, to) == Block(s, f, i)
  {
    CutsMonotone(|s|, f, first, i);
    CutsMonotone(|s|, f, i + 1, last + 1);
    SliceOfSlice(s, Cut(|s|, f, first), Cut(|s|, f, last + 1), at, to);
  }

  /** The part of `[start, end]` that lies before block `n`. */
  function UpTo<T>(s: seq<T>, f: pos, start: nat, end: nat, n: nat): seq<T>
    requires start <= end < |s|
  {
    s[start..Max(start, Min(end + 1, Cut(|s|, f, n)))]
  }

  /** The worker's piece of block `i` extends the slice by exactly that block's share of it. */
  lemma PieceExtends<T>(s: seq<T>, f: pos, start: nat, end: nat, first: nat, last: nat, i: nat, from: nat, to: nat)
    requires start <= end < |s| && first <= i <= last
    requires first * f <= start < first * f + f && last * f <= end < last * f + f
    requires from == if i == first then start - i * f else 0
    requires to == if i == last then end - i * f + 1 else |Block(s, f, i)|
    ensures UpTo(s, f, start, end, i + 1) == UpTo(s, f, start, end, i) + Clamp(Block(s, f, i), from, to)
  {
    PieceSpan(|s|, f, start, end, first, last, i, from, to);
    PieceJoins(s, Cut(|s|, f, i), Cut(|s|, f, i + 1), start, end, from, to);
  }

  /** Where the piece begins and ends in its block. */
  lemma PieceSpan(size: nat, f: pos, start: nat, end: nat, first: nat, last: nat, i: nat, from: nat, to: nat)
    requires start <= end < size && first <= i <= last
    requires first * f <= start < first * f + f && last * f <= end < last * f + f
    requires from == if i == first then start - i * f else 0
    requires to == if i == last then end - i * f + 1 else Cut(size, f, i + 1) - Cut(size, f, i)
    ensures Cut(size, f, i) <= Cut(size, f, i + 1) && Cut(size, f, i) <= end && start < Cut(size, f, i + 1)
    ensures from == Max(0, start - Cut(size, f, i)) && to == Min(end + 1, Cut(size, f, i + 1)) - Cut(size, f, i)
  {
    CutInside(size, f, first);
    CutInside(size, f, last);
    CutsMonotone(size, f, first, i);
    CutsMonotone(size, f, i, last);
    if i < last {
      CutsMonotone(size, f, i + 1, last);
    }
    if first < i {
      CutsMonotone(size, f, first + 1, i);
    }
  }

  lemma PieceJoins<T>(s: seq<T>, a: nat, b: nat, start: nat, end: nat, from: nat, to: nat)
    requires start <= end < |s| && a <= b <= |s| && a <= end && start < b
    requires from == Max(0, start - a) && to == Min(end + 1, b) - a
    ensures s[start..Max(start, Min(end + 1, b))] == s[start..Max(start, Min(end + 1, a))] + Clamp(s[a..b], from, to)
  {
    SliceOfSlice(s, a, b, from, to);
  }

  lemma UpToIsPrefix<T>(s: seq<T>, f: pos, start: nat, end: nat, n: nat)
    requires start <= end < |s|
    ensures UpTo(s, f, start, end, n) <= s[start..end + 1]
  {
  }

  lemma SliceIsCovered<T>(s: seq<T>, f: pos, start: nat, end: nat, first: nat, last: nat)
    requires start <= end < |s|
    requires first * f <= start < first * f + f && last * f <= end < last * f + f
    ensures UpTo(s, f, start, end, first) == [] && UpTo(s, f, start, end, last + 1) == s[start..end + 1]
  {
    CutInside(|s|, f, first);
    CutInside(|s|, f, last);
  }

  lemma StepWidth(size: nat, f: pos, i: nat)
    ensures Cut(size, f, i + 1) - Cut(size, f, i) == Min(f, Max(0, size - i * f))
  {
    CutIsProduct(size, f, i);
  }

  /** Every position lies inside the block its quotient names. */
  lemma BlockOfPosition(size: nat, f: pos, p: nat, i: nat)
    requires p < size && i * f <= p < i * f + f
    ensures Cut(size, f, i) == i * f && p < Cut(size, f, i + 1) <= i * f + f
  {
    CutInside(size, f, i);
  }

  /** Later positions lie in later blocks. */
  lemma BlocksInOrder(f: pos, p: nat, q: nat)
    requires p <= q
    ensures p / f <= q / f
  {
    BlockOf(p, f);
    BlockOf(q, f);
    QuotientsInOrder(f, p, q, p / f, q / f);
  }

  lemma QuotientsInOrder(f: pos, p: nat, q: nat, i: nat, j: nat)
    requires p <= q && i * f <= p && q < j * f + f
    ensures i <= j
  {
    if j < i {
      MulMonotone(j + 1, i, f);
      assert false;
    }
  }

  lemma EndIsReached(size: nat, f: pos, count: nat)
    requires size <= count * f
    ensures Cut(size, f, count) == size
  {
    CutIsProduct(size, f, count);
  }
}
