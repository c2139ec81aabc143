/** The insertion-ordered `Map` a stream keeps its recent blocks in. */
module BlockCache {
  const CACHE_BLOCKS := 24

  function Without(order: seq<nat>, k: nat): seq<nat> {
    if order == [] then [] else if order[0] == k then Without(order[1..], k) else [order[0]] + Without(order[1..], k)
  }

  /** Keys `first`, `first + 1`, … — `n` of them. */
  function Span(first: nat, n: nat): (s: seq<nat>)
    ensures |s| == n && forall j :: 0 <= j < n ==> s[j] == first + j
  {
    seq(n, j requires 0 <= j => first + j)
  }

  /** The last 24 keys of an order. */
  function Newest(order: seq<nat>): seq<nat> {
    if |order| <= CACHE_BLOCKS then order else order[|order| - CACHE_BLOCKS..]
  }

  /** Values under consecutive keys from `first`. */
  function RunMap<V>(first: nat, values: seq<V>): (m: map<nat, V>)
    ensures forall k :: k in m <==> first <= k < first + |values|
    ensures forall k :: k in m ==> m[k] == values[k - first]
  {
    var n := |values|;
    if n == 0 then map[] else RunMap(first, values[..n - 1])[first + n - 1 := values[n - 1]]
  }

  function Drop<V>(m: map<nat, V>, keys: seq<nat>): map<nat, V> {
    map k | k in m && k !in keys :: m[k]
  }

  function Restrict<V>(m: map<nat, V>, keys: seq<nat>): map<nat, V> {
    map k | k in m && k in keys :: m[k]
  }

  /** A run was set and the oldest entries made room for it: what that leaves, exactly. */
  ghost predicate RunWasSet<V>(m: map<nat, V>, order: seq<nat>, first: nat, run: seq<V>, m': map<nat, V>,
                               order': seq<nat>) {
    order' == Newest(order + Span(first, |run|)) && m' == Restrict(m + RunMap(first, run), order')
  }

  /** Keys in the order of their last use. */
  ghost predicate Ascending(order: seq<nat>, used: map<nat, nat>) {
    && (forall k :: k in order ==> k in used)
    && forall i, j :: 0 <= i < j < |order| ==> used[order[i]] < used[order[j]]
  }

  lemma {:induction false} WithoutKeeps(order: seq<nat>, k: nat, used: map<nat, nat>)
    requires Ascending(order, used)
    ensures Ascending(Without(order, k), used) && |Without(order, k)| <= |order|
    ensures forall x :: x in Without(order, k) <==> x in order && x != k
    ensures k in order ==> |Without(order, k)| < |order|
  {
    if order != [] {
      assert forall x :: x in order <==> x == order[0] || x in order[1..];
      WithoutKeeps(order[1..], k, used);
      var rest := Without(order[1..], k);
      if order[0] != k {
        forall j | 0 <= j < |rest|
          ensures used[order[0]] < used[rest[j]]
        {
          assert rest[j] in order[1..];
        }
      }
    }
  }

  /** Appending the key just used keeps the order. */
  lemma AppendKeeps(order: seq<nat>, k: nat, used: map<nat, nat>, clock: nat)
    requires Ascending(order, used) && k !in order && forall x :: x in used ==> used[x] < clock
    ensures Ascending(order + [k], used[k := clock])
  {
    var used' := used[k := clock];
    forall x | x in order
      ensures used'[x] == used[x] < clock
    {
    }
  }

  class Cache<V(0)> {
    /** Entries, and their keys oldest first. */
    var entries: map<nat, V>
    var order: seq<nat>

    ghost var clock: nat
    ghost var used: map<nat, nat>

    constructor ()
      ensures Valid() && entries == map[]
    {
      entries, order, clock, used := map[], [], 0, map[];
    }

    /** Between calls: at most 24 entries, keys in the order of their last use. */
    ghost predicate Valid()
      reads this
    {
      |order| <= CACHE_BLOCKS && Kept()
    }

    ghost predicate Kept()
      reads this
    {
      && (forall k :: k in order <==> k in entries)
      && Ascending(order, used)
      && (forall k :: k in used ==> used[k] < clock)
    }

    /** `delete` then `set`: the entry becomes the most recent. */
    method Touch(i: nat)
      requires Valid() && i in entries
      modifies `order, `clock, `used
      ensures Valid() && order == Without(old(order), i) + [i]
      ensures used == old(used)[i := old(clock)]
    {
      WithoutKeeps(order, i, used);
      AppendKeeps(Without(order, i), i, used, clock);
      order := Without(order, i) + [i];
      used := used[i := clock];
      clock := clock + 1;
    }

    /** `set` of a new key. */
    method Put(k: nat, v: V)
      requires Kept() && k !in entries
      modifies this
      ensures Kept() && order == old(order) + [k] && entries == old(entries)[k := v]
      ensures used == old(used)[k := old(clock)]
    {
      AppendKeeps(order, k, used, clock);
      entries := entries[k := v];
      order := order + [k];
      used := used[k := clock];
      clock := clock + 1;
    }

    /** Set a run of new keys, in order. */
    method Insert(first: nat, values: seq<V>)
      requires Kept() && forall k :: first <= k < first + |values| ==> k !in entries
      modifies this
      ensures Kept() && order == old(order) + Span(first, |values|)
      ensures entries == old(entries) + RunMap(first, values)
      ensures forall k :: k in old(entries) ==> k in used
    {
      ghost var was, wasUsed := entries, used;
      var j := 0;
      while j < |values|
        invariant 0 <= j <= |values|
        invariant Kept() && order == old(order) + Span(first, j)
        invariant entries == was + RunMap(first, values[..j])
        invariant wasUsed.Keys <= used.Keys
      {
        RunMapStep(was, first, values, j);
        Put(first + j, values[j]);
        j := j + 1;
      }
      assert values[..j] == values;
    }

    /** Drop the least recently used entries until the bound is met. */
    method Evict()
      requires Kept()
      modifies `entries, `order
      ensures Valid() && order == Newest(old(order)) && entries == Restrict(old(entries), order)
    {
      ghost var was, all := entries, order;
      ghost var d := 0;
      assert entries == Restrict(was, order);
      while |order| > CACHE_BLOCKS
        invariant 0 <= d <= |all| && order == all[d..]
        invariant d == 0 || |order| >= CACHE_BLOCKS
        invariant entries == Restrict(was, order)
        decreases |order|
      {
        SuffixKeeps(all, d, used);
        DropFirst(was, order, used);
        entries := entries - {order[0]};
        order := order[1..];
        d := d + 1;
      }
      SuffixKeeps(all, d, used);
    }

    /** A fetched run is set, and the oldest entries make room for it. */
    method PutRun(first: nat, run: seq<V>)
      requires Valid() && forall k :: first <= k < first + |run| ==> k !in entries
      modifies this
      ensures Valid() && RunWasSet(old(entries), old(order), first, run, entries, order)
    {
      Insert(first, run);
      Evict();
    }

    /** `delete` a run of keys. */
    method Forget(first: nat, n: nat)
      requires Valid()
      modifies `entries, `order
      ensures Valid() && entries == Drop(old(entries), Span(first, n))
    {
      ghost var was := entries;
      var j := 0;
      while j < n
        invariant 0 <= j <= n && Valid() && entries == Drop(was, Span(first, j))
      {
        WithoutKeeps(order, first + j, used);
        DropStep(was, first, j);
        entries := entries - {first + j};
        order := Without(order, first + j);
        j := j + 1;
      }
    }

    /** A run whose promises failed: set, room made, and forgotten again. */
    method PutFailed(first: nat, promises: seq<V>)
      requires Valid() && forall k :: first <= k < first + |promises| ==> k !in entries
      modifies this
      ensures Valid() && entries == Restrict(old(entries), Newest(old(order) + Span(first, |promises|)))
    {
      ghost var was := entries;
      PutRun(first, promises);
      ForgottenRun(was, first, promises, order);
      Forget(first, |promises|);
    }
  }

  /** Forgetting a run just set leaves only what was there before. */
  lemma ForgottenRun<V>(m: map<nat, V>, first: nat, run: seq<V>, keys: seq<nat>)
    requires forall k :: first <= k < first + |run| ==> k !in m
    ensures Drop(Restrict(m + RunMap(first, run), keys), Span(first, |run|)) == Restrict(m, keys)
  {
    forall k | first <= k < first + |run|
      ensures k in Span(first, |run|)
    {
      assert Span(first, |run|)[k - first] == k;
    }
  }

  lemma DropStep<V>(m: map<nat, V>, first: nat, j: nat)
    ensures Drop(m, Span(first, j + 1)) == Drop(m, Span(first, j)) - {first + j}
  {
    assert Span(first, j + 1) == Span(first, j) + [first + j];
  }

  /** The block just asked for is never among those evicted to make room for its run. */
  lemma AskedForStays<V>(m: map<nat, V>, order: seq<nat>, first: nat, run: seq<V>, m': map<nat, V>, order': seq<nat>)
    requires 1 <= |run| <= CACHE_BLOCKS && RunWasSet(m, order, first, run, m', order')
    ensures first in m' && m'[first] == run[0]
  {
    var all := order + Span(first, |run|);
    assert all[|order|] == first;
    if |all| > CACHE_BLOCKS {
      assert Newest(all)[|order| - (|all| - CACHE_BLOCKS)] == first;
    }
  }

  lemma RunMapStep<V>(m: map<nat, V>, first: nat, values: seq<V>, j: nat)
    requires j < |values|
    ensures Span(first, j + 1) == Span(first, j) + [first + j]
    ensures m + RunMap(first, values[..j + 1]) == (m + RunMap(first, values[..j]))[first + j := values[j]]
  {
    assert values[..j + 1][..j] == values[..j];
  }

  lemma DropFirst<V>(m: map<nat, V>, order: seq<nat>, used: map<nat, nat>)
    requires order != [] && Ascending(order, used)
    ensures Restrict(m, order[1..]) == Restrict(m, order) - {order[0]}
  {
    assert forall k :: k in order <==> k == order[0] || k in order[1..];
  }

  /** What eviction drops was used before everything it keeps, and the newest key is kept. */
  lemma EvictsOldest<V>(m: map<nat, V>, order: seq<nat>, used: map<nat, nat>)
    requires Ascending(order, used) && forall k :: k in m ==> k in order
    ensures forall k, j :: k in m && k !in Restrict(m, Newest(order)) && j in Restrict(m, Newest(order)) ==>
      used[k] < used[j]
  {
    if |order| > CACHE_BLOCKS {
      SuffixKeeps(order, |order| - CACHE_BLOCKS, used);
    }
  }

  /** Cutting an ascending order: what remains ascends, and everything cut off was used earlier. */
  lemma SuffixKeeps(order: seq<nat>, d: nat, used: map<nat, nat>)
    requires Ascending(order, used) && d <= |order|
    ensures Ascending(order[d..], used)
    ensures forall k, j :: k in order[..d] && j in order[d..] ==> k in used && j in used && used[k] < used[j]
    ensures forall k :: k in order <==> k in order[..d] || k in order[d..]
  {
    assert order == order[..d] + order[d..];
  }
}
