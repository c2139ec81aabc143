/** Byte sequences, the optional and failing results, and the arithmetic every other module leans on. */
module Bytes {
  datatype Option<+T> = None | Some(value: T)

  datatype Result<+T, +E> = Ok(value: T) | Err(error: E)

  newtype byte = b: int | 0 <= b < 256
  type bytes = seq<byte>
  type pos = n: int | 1 <= n witness 1

  function Min(a: int, b: int): int { if a < b then a else b }

  function Max(a: int, b: int): int { if a > b then a else b }

  /** `Math.ceil(n / f)` for naturals: how many pieces of `f` it takes to cover `n`. */
  function CeilDiv(n: nat, f: pos): nat {
    if n == 0 then 0 else if n <= f then 1 else 1 + CeilDiv(n - f, f)
  }

  /** `subarray` and `slice` on a buffer: both ends clamp to its length. */
  function Clamp<T>(s: seq<T>, from: nat, to: nat): seq<T> {
    var a := Min(from, |s|);
    var b := Min(to, |s|);
    if a <= b then s[a..b] else []
  }

  /** No element occurs twice. */
  ghost predicate Distinct<T>(s: seq<T>) { forall i, j :: 0 <= i < j < |s| ==> s[i] != s[j] }

  ghost function Elements<T>(s: seq<T>): set<T> { set x | x in s }

  lemma Cancelled<T>(a: multiset<T>, b: multiset<T>, x: T)
    requires a + multiset{x} == b + multiset{x}
    ensures a == b
  {
    assert a == (a + multiset{x}) - multiset{x};
    assert b == (b + multiset{x}) - multiset{x};
  }

  /** `Buffer.concat`. */
  function Concat<T>(parts: seq<seq<T>>): seq<T> {
    if parts == [] then [] else parts[0] + Concat(parts[1..])
  }

  lemma ConcatAppend<T>(parts: seq<seq<T>>, last: seq<T>)
    ensures Concat(parts + [last]) == Concat(parts) + last
  {
    if parts != [] {
      assert (parts + [last])[1..] == parts[1..] + [last];
      ConcatAppend(parts[1..], last);
    }
  }

  lemma ConcatPrefix<T>(parts: seq<seq<T>>, i: nat)
    requires i < |parts|
    ensures Concat(parts[..i + 1]) == Concat(parts[..i]) + parts[i]
  {
    assert parts[..i + 1] == parts[..i] + [parts[i]];
    ConcatAppend(parts[..i], parts[i]);
  }

  lemma {:induction false} ConcatSplit<T>(parts: seq<seq<T>>, i: nat)
    requires i <= |parts|
    ensures Concat(parts) == Concat(parts[..i]) + Concat(parts[i..])
  {
    if i == 0 {
      assert parts[0..] == parts;
    } else {
      ConcatSplit(parts, i - 1);
      ConcatPrefix(parts, i - 1);
      assert parts[i - 1..][1..] == parts[i..];
    }
  }

  /** Each part lies behind the ones before it. */
  lemma ConcatPart<T>(parts: seq<seq<T>>, i: nat, at: nat, to: nat)
    requires i < |parts| && at == |Concat(parts[..i])| && to == at + |parts[i]|
    ensures at <= to <= |Concat(parts)| && Concat(parts)[at..to] == parts[i]
  {
    ConcatSplit(parts, i);
    assert parts[i..][0] == parts[i];
    SliceMiddle(Concat(parts[..i]), parts[i], Concat(parts[i..][1..]));
  }

  /** A piece of a piece, when the inner one does not cut it. */
  lemma ClampOfClamp<T>(s: seq<T>, a: nat, b: nat, from: nat, to: nat, start: nat, end: nat)
    requires from <= to && end <= b && start == a + from && end == a + to
    ensures Clamp(Clamp(s, a, b), from, to) == Clamp(s, start, end)
  {
    var inner := Clamp(s, a, b);
    if a <= |s| {
      SliceOfSlice(s, a, Min(b, |s|), Min(from, |inner|), Min(to, |inner|));
    }
  }

  lemma ClampAppend<T>(s: seq<T>, c: seq<T>, from: nat, to: nat)
    ensures Clamp(s + c, from, to) == Clamp(s, from, to) + Clamp(c, Max(0, from - |s|), Max(0, to - |s|))
  {
    var a, b := Min(from, |s + c|), Min(to, |s + c|);
    if a > b {
    } else if b <= |s| {
      SliceBefore(s, c, a, b);
    } else if |s| <= a {
      ClampAfter(s, c, from, to, a - |s|, b - |s|);
    } else {
      SliceAcross(s, c, a, b);
    }
  }

  lemma ClampAfter<T>(s: seq<T>, c: seq<T>, from: nat, to: nat, a: nat, b: nat)
    requires a <= b && |s| + a == Min(from, |s + c|) && |s| + b == Min(to, |s + c|) && b > 0
    ensures Clamp(s + c, from, to) == Clamp(s, from, to) + Clamp(c, from - |s|, to - |s|)
  {
    SliceFrom(s, c, a, b, c[a..b], |s| + a, |s| + b);
    assert Clamp(s, from, to) == [];
  }

  lemma SliceBefore<T>(s: seq<T>, c: seq<T>, a: nat, b: nat)
    requires a <= b <= |s|
    ensures (s + c)[a..b] == s[a..b]
  {
  }

  lemma SliceAcross<T>(s: seq<T>, c: seq<T>, a: nat, b: nat)
    requires a <= |s| <= b <= |s + c|
    ensures (s + c)[a..b] == s[a..] + c[..b - |s|]
  {
  }

  lemma SliceFrom<T>(pre: seq<T>, s: seq<T>, a: nat, b: nat, part: seq<T>, from: nat, to: nat)
    requires a <= b <= |s| && s[a..b] == part && from == |pre| + a && to == |pre| + b
    ensures from <= to <= |pre + s| && (pre + s)[from..to] == part
  {
  }

  lemma SliceOfSlice<T>(s: seq<T>, a: nat, b: nat, from: nat, to: nat)
    requires a <= b <= |s| && from <= to <= b - a
    ensures s[a..b][from..to] == s[a + from..a + to]
  {
    var part := s[a..b];
    assert forall i :: 0 <= i < to - from ==> part[from..to][i] == part[from + i] == s[a + from + i];
  }

  lemma SliceMiddle<T>(a: seq<T>, b: seq<T>, c: seq<T>)
    ensures (a + (b + c))[|a|..|a| + |b|] == b
  {
  }

  lemma SliceOfPrefix<T>(x: seq<T>, s: seq<T>, off: nat, at: nat, to: nat, part: seq<T>)
    requires off <= |s| && x <= s[off..] && off <= at <= to <= off + |x| && x[at - off..to - off] == part
    ensures to <= |s| && s[at..to] == part
  {
    assert s[off..][..|x|] == x;
  }

  /** Counting pieces of `f` up to `n`: the last one starts before `n` and ends at or after it. */
  lemma {:induction false} CeilDivBounds(n: nat, f: pos)
    ensures n <= CeilDiv(n, f) * f < n + f
  {
    if n > f {
      CeilDivBounds(n - f, f);
      AddOne(CeilDiv(n - f, f), f);
    } else if n > 0 {
      AddOne(0, f);
    }
  }

  lemma AddOne(c: nat, f: nat)
    ensures (1 + c) * f == f + c * f
  {
  }

  /** Those bounds are what a ceiling is, so the quotient computes it. */
  lemma CeilDivIsQuotient(n: nat, f: pos)
    ensures CeilDiv(n, f) == (n + f - 1) / f
  {
    CeilDivBounds(n, f);
    DivMod(n + f - 1, f);
    SameQuotient(n + f - 1, f, CeilDiv(n, f), (n + f - 1) / f);
  }

  lemma SameQuotient(p: nat, f: pos, i: nat, j: nat)
    requires i * f <= p < i * f + f && j * f <= p < j * f + f
    ensures i == j
  {
    if i < j {
      MulMonotone(i + 1, j, f);
      assert false;
    } else if j < i {
      MulMonotone(j + 1, i, f);
      assert false;
    }
  }

  lemma DivMod(n: nat, f: pos)
    ensures n == n / f * f + n % f && 0 <= n % f < f
  {
  }

  lemma MulMonotone(a: int, b: int, f: nat)
    requires a <= b
    ensures a * f <= b * f
  {
  }

  lemma MulMinus(a: int, b: int, f: int)
    ensures (a - b) * f == a * f - b * f
  {
  }

  /** The block holding position `p` is the one whose bounds enclose it. */
  lemma BlockOf(p: nat, f: pos)
    ensures p / f * f <= p < p / f * f + f
  {
    DivMod(p, f);
  }

  /** Big-endian and little-endian 32-bit words, and the numbers they stand for. */
  function Be32(n: nat): (w: bytes)
    requires n < 0x1_0000_0000
    ensures |w| == 4
  {
    [(n / 0x100_0000) as byte, (n / 0x1_0000 % 256) as byte, (n / 256 % 256) as byte, (n % 256) as byte]
  }

  function Le32(n: nat): (w: bytes)
    requires n < 0x1_0000_0000
    ensures |w| == 4
  {
    [(n % 256) as byte, (n / 256 % 256) as byte, (n / 0x1_0000 % 256) as byte, (n / 0x100_0000) as byte]
  }

  function ReadBe32(w: bytes): nat
    requires |w| == 4
  {
    w[0] as nat * 0x100_0000 + w[1] as nat * 0x1_0000 + w[2] as nat * 256 + w[3] as nat
  }

  function ReadLe32(w: bytes): nat
    requires |w| == 4
  {
    w[3] as nat * 0x100_0000 + w[2] as nat * 0x1_0000 + w[1] as nat * 256 + w[0] as nat
  }

  lemma WordsRoundTrip(n: nat)
    requires n < 0x1_0000_0000
    ensures ReadBe32(Be32(n)) == n && ReadLe32(Le32(n)) == n
  {
  }
}
