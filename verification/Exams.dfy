/** Dealing and marking an exam paper. */
module Exams {
  import opened Bytes

  // ── Dealing ───────────────────────────────────────────────────────────────

  /** One draw for every position: position `i` is swapped with one of the first `i + 1`. */
  predicate IsDraws(draws: seq<nat>, n: nat) { |draws| == n && forall i :: 0 <= i < n ==> draws[i] <= i }

  function Swapped<T>(s: seq<T>, i: nat, j: nat): (r: seq<T>)
    requires i < |s| && j < |s|
    ensures |r| == |s|
  {
    s[i := s[j]][j := s[i]]
  }

  /** Fisher-Yates from the end: the last position gets its draw and is left alone, the rest follows. */
  function Dealt<T>(items: seq<T>, draws: seq<nat>): (out: seq<T>)
    requires IsDraws(draws, |items|)
    ensures |out| == |items|
    decreases |items|
  {
    if items == [] then []
    else
      var last := |items| - 1;
      var s := Swapped(items, last, draws[last]);
      Dealt(s[..last], draws[..last]) + [s[last]]
  }

  /** A draw of `Math.random()` in [0, 1) scaled to the first `i + 1` positions. */
  function Drawn(random: real, i: nat): (j: nat)
    requires 0.0 <= random < 1.0
    ensures j <= i
  {
    var scaled := random * (i + 1) as real;
    ScaledBelow(random, (i + 1) as real);
    scaled.Floor
  }

  lemma ScaledBelow(random: real, n: real)
    requires 0.0 <= random < 1.0 && n > 0.0
    ensures 0.0 <= random * n < n
  {
    Positive(1.0 - random, n);
  }

  lemma Positive(x: real, y: real)
    requires x > 0.0 && y > 0.0
    ensures x * y > 0.0
  {
  }

  /** Every position can be drawn. */
  lemma EveryDrawHappens(i: nat, j: nat) returns (random: real)
    requires j <= i
    ensures 0.0 <= random < 1.0 && Drawn(random, i) == j
  {
    random := j as real / (i + 1) as real;
    assert random * (i + 1) as real == j as real;
  }

  /** The loop, on a copy. */
  method Shuffled<T>(items: seq<T>, draws: seq<nat>) returns (out: array<T>)
    requires IsDraws(draws, |items|)
    ensures fresh(out) && out[..] == Dealt(items, draws)
  {
    out := new T[|items|](i requires 0 <= i < |items| => items[i]);
    assert out[..] == items;
    if |items| == 0 {
      return;
    }
    var i := |items| - 1;
    NoneDealt(items, draws, i);
    while i > 0
      invariant 0 <= i < |items| == out.Length
      invariant DealtFrom(out[..], draws, i) == Dealt(items, draws)
    {
      var j := draws[i];
      OneSwap(out[..], draws, i);
      out[i], out[j] := out[j], out[i];
      i := i - 1;
    }
    AllDealt(out[..], draws);
  }

  /** What dealing the first `i + 1` positions still makes of the array. */
  ghost function DealtFrom<T>(s: seq<T>, draws: seq<nat>, i: nat): seq<T>
    requires IsDraws(draws, |s|) && i < |s|
  {
    Dealt(s[..i + 1], draws[..i + 1]) + s[i + 1..]
  }

  lemma NoneDealt<T>(items: seq<T>, draws: seq<nat>, last: nat)
    requires IsDraws(draws, |items|) && |items| == last + 1
    ensures DealtFrom(items, draws, last) == Dealt(items, draws)
  {
    assert items[..last + 1] == items && draws[..last + 1] == draws;
  }

  lemma AllDealt<T>(s: seq<T>, draws: seq<nat>)
    requires IsDraws(draws, |s|) && s != []
    ensures DealtFrom(s, draws, 0) == s
  {
    DealtOne(s[..1], draws[..1]);
    assert s == s[..1] + s[1..];
  }

  lemma DealtOne<T>(items: seq<T>, draws: seq<nat>)
    requires |items| == 1 && IsDraws(draws, 1)
    ensures Dealt(items, draws) == items
  {
    assert Swapped(items, 0, 0) == items;
  }

  lemma OneSwap<T>(before: seq<T>, draws: seq<nat>, i: nat)
    requires IsDraws(draws, |before|) && 0 < i < |before|
    ensures DealtFrom(Swapped(before, i, draws[i]), draws, i - 1) == DealtFrom(before, draws, i)
  {
    var after := Swapped(before, i, draws[i]);
    assert Swapped(before[..i + 1], i, draws[i]) == after[..i + 1];
    assert after[..i + 1][..i] == after[..i] && draws[..i + 1][..i] == draws[..i];
    assert after[i..] == [after[i]] + before[i + 1..];
  }

  /** Nothing is lost or repeated. */
  lemma {:induction false} DealtPermutes<T>(items: seq<T>, draws: seq<nat>)
    requires IsDraws(draws, |items|)
    ensures multiset(Dealt(items, draws)) == multiset(items)
    decreases |items|
  {
    if items != [] {
      var last := |items| - 1;
      var s := Swapped(items, last, draws[last]);
      DealtPermutes(s[..last], draws[..last]);
      calc {
        multiset(Dealt(items, draws));
        { Appended(Dealt(s[..last], draws[..last]), s[last]); }
        multiset(s[..last]) + multiset{s[last]};
        { Appended(s[..last], s[last]); SplitLast(s, last); }
        multiset(s);
        { SwapPermutes(items, last, draws[last]); }
        multiset(items);
      }
    }
  }

  lemma Appended<T>(s: seq<T>, x: T)
    ensures multiset(s + [x]) == multiset(s) + multiset{x}
  {
  }

  lemma SplitLast<T>(s: seq<T>, last: nat)
    requires |s| == last + 1
    ensures s == s[..last] + [s[last]]
  {
  }

  lemma SwapPermutes<T>(s: seq<T>, i: nat, j: nat)
    requires i < |s| && j < |s|
    ensures multiset(Swapped(s, i, j)) == multiset(s)
  {
  }

  function IndexOf<T(==)>(s: seq<T>, x: T): (i: nat)
    requires x in s
    ensures i < |s| && s[i] == x
  {
    if s[0] == x then 0 else 1 + IndexOf(s[1..], x)
  }

  /** The draws that deal `out` from `items`, read off from the last position back. */
  ghost function DrawsFor<T>(items: seq<T>, out: seq<T>): (draws: seq<nat>)
    requires multiset(items) == multiset(out)
    ensures IsDraws(draws, |items|)
    decreases |items|
  {
    SameLength(items, out);
    if items == [] then []
    else
      var last := |items| - 1;
      assert out[last] in multiset(out);
      var j := IndexOf(items, out[last]);
      RestPermutes(items, out, j);
      DrawsFor(Swapped(items, last, j)[..last], out[..last]) + [j]
  }

  lemma SameLength<T>(a: seq<T>, b: seq<T>)
    requires multiset(a) == multiset(b)
    ensures |a| == |b|
  {
    assert |multiset(a)| == |a| && |multiset(b)| == |b|;
  }

  lemma RestPermutes<T>(items: seq<T>, out: seq<T>, j: nat)
    requires multiset(items) == multiset(out) && |items| == |out| > 0 && j < |items| && items[j] == out[|items| - 1]
    ensures multiset(Swapped(items, |items| - 1, j)[..|items| - 1]) == multiset(out[..|items| - 1])
  {
    var last := |items| - 1;
    var s := Swapped(items, last, j);
    SwapPermutes(items, last, j);
    SplitLast(s, last);
    SplitLast(out, last);
    Appended(s[..last], s[last]);
    Appended(out[..last], out[last]);
    Cancelled(multiset(s[..last]), multiset(out[..last]), out[last]);
  }

  lemma DrawsStep<T>(items: seq<T>, out: seq<T>, j: nat, last: nat)
    requires multiset(items) == multiset(out) && |items| == |out| == last + 1 && out[last] in items
    requires IndexOf(items, out[last]) == j
    ensures multiset(Swapped(items, last, j)[..last]) == multiset(out[..last])
    ensures DrawsFor(items, out) == DrawsFor(Swapped(items, last, j)[..last], out[..last]) + [j]
  {
    RestPermutes(items, out, j);
  }

  /** Every permutation is dealt by some draws … */
  lemma {:induction false} EveryOrderIsDealt<T>(items: seq<T>, out: seq<T>)
    requires multiset(items) == multiset(out)
    ensures Dealt(items, DrawsFor(items, out)) == out
    decreases |items|
  {
    SameLength(items, out);
    if items != [] {
      var last := |items| - 1;
      assert out[last] in multiset(out);
      var j := IndexOf(items, out[last]);
      var s := Swapped(items, last, j);
      RestPermutes(items, out, j);
      EveryOrderIsDealt(s[..last], out[..last]);
      var draws := DrawsFor(s[..last], out[..last]);
      assert DrawsFor(items, out) == draws + [j];
      assert (draws + [j])[..last] == draws;
      assert out == out[..last] + [out[last]];
    }
  }

  /** … and, on distinct items, by no others. */
  lemma {:induction false} OnlyOneDealGivesIt<T>(items: seq<T>, draws: seq<nat>, out: seq<T>)
    requires Distinct(items) && IsDraws(draws, |items|) && out == Dealt(items, draws)
    ensures multiset(items) == multiset(out) && DrawsFor(items, out) == draws
    decreases |items|
  {
    DealtPermutes(items, draws);
    if items != [] {
      var last := |items| - 1;
      var s := Swapped(items, last, draws[last]);
      SwapKeepsDistinct(items, last, draws[last]);
      LastIsDealt(items, draws, out, last);
      OnlyOneDealGivesIt(s[..last], draws[..last], out[..last]);
      DrawsAre(items, out, draws, last);
    }
  }

  lemma DrawsAre<T>(items: seq<T>, out: seq<T>, draws: seq<nat>, last: nat)
    requires multiset(items) == multiset(out) && |items| == |out| == |draws| == last + 1 && draws[last] <= last
    requires out[last] in items && IndexOf(items, out[last]) == draws[last]
    requires multiset(Swapped(items, last, draws[last])[..last]) == multiset(out[..last])
    requires DrawsFor(Swapped(items, last, draws[last])[..last], out[..last]) == draws[..last]
    ensures DrawsFor(items, out) == draws
  {
    DrawsStep(items, out, draws[last], last);
    SplitLast(draws, last);
  }

  lemma LastIsDealt<T>(items: seq<T>, draws: seq<nat>, out: seq<T>, last: nat)
    requires Distinct(items) && |items| == last + 1 && IsDraws(draws, |items|) && out == Dealt(items, draws)
    ensures out[..last] == Dealt(Swapped(items, last, draws[last])[..last], draws[..last])
    ensures out[last] in items && IndexOf(items, out[last]) == draws[last]
  {
    IndexIsUnique(items, draws[last]);
  }

  lemma {:induction false} IndexIsUnique<T>(s: seq<T>, j: nat)
    requires Distinct(s) && j < |s|
    ensures IndexOf(s, s[j]) == j
  {
  }

  lemma SwapKeepsDistinct<T>(s: seq<T>, i: nat, j: nat)
    requires Distinct(s) && i < |s| && j < |s|
    ensures Distinct(Swapped(s, i, j)[..i])
  {
    var r := Swapped(s, i, j);
    forall a, b | 0 <= a < b < i
      ensures r[a] != r[b]
    {
      assert r[a] == if a == j then s[i] else s[a];
      assert r[b] == if b == j then s[i] else s[b];
    }
  }
}
