/** The two in-memory rate limiters. */
module Limiters {
  import opened Bytes

  type Key = string

  // ── Sliding window ────────────────────────────────────────────────────────

  /** `v.filter((t) => now - t < windowMs)`. */
  function Recent(times: seq<int>, now: int, windowMs: int): seq<int> {
    if times == [] then []
    else
      var front, last := Recent(times[..|times| - 1], now, windowMs), times[|times| - 1];
      if now - last < windowMs then front + [last] else front
  }

  lemma RecentAppend(times: seq<int>, t: int, now: int, windowMs: int)
    ensures Recent(times + [t], now, windowMs) ==
      if now - t < windowMs then Recent(times, now, windowMs) + [t] else Recent(times, now, windowMs)
  {
    assert (times + [t])[..|times|] == times;
  }

  /** How many of the instants lie in `[from, to)`. */
  function CountIn(times: seq<int>, from: int, to: int): (n: nat)
    ensures n <= |times|
  {
    if times == [] then 0
    else
      var last := |times| - 1;
      CountIn(times[..last], from, to) + if from <= times[last] < to then 1 else 0
  }

  /** Of instants already past, the recent ones are those in the window that ends now. */
  lemma {:induction false} RecentIsCounted(times: seq<int>, now: int, windowMs: int)
    requires forall i :: 0 <= i < |times| ==> times[i] <= now
    ensures |Recent(times, now, windowMs)| == CountIn(times, now - windowMs + 1, now + 1)
  {
    if times != [] {
      RecentIsCounted(times[..|times| - 1], now, windowMs);
    }
  }

  /** Filtering once and again later is filtering later. */
  lemma {:induction false} RecentOfRecent(times: seq<int>, earlier: int, now: int, windowMs: int)
    requires earlier <= now
    ensures Recent(Recent(times, earlier, windowMs), now, windowMs) == Recent(times, now, windowMs)
  {
    if times != [] {
      var front, last := times[..|times| - 1], times[|times| - 1];
      RecentOfRecent(front, earlier, now, windowMs);
      RecentAppend(Recent(front, earlier, windowMs), last, now, windowMs);
    }
  }

  lemma {:induction false} NothingRecent(times: seq<int>, now: int, windowMs: int)
    requires forall i :: 0 <= i < |times| ==> now - times[i] >= windowMs
    ensures Recent(times, now, windowMs) == []
  {
    if times != [] {
      NothingRecent(times[..|times| - 1], now, windowMs);
    }
  }

  /** Each grant found fewer than `limit` others in the window before it. */
  ghost predicate Rationed(granted: seq<int>, limit: nat, windowMs: int) {
    && (forall i, j :: 0 <= i < j < |granted| ==> granted[i] <= granted[j])
    && forall i :: 0 <= i < |granted| ==> |Recent(granted[..i], granted[i], windowMs)| < limit
  }

  /** In no half-open interval of the window's length are there more than `limit` grants. */
  lemma {:induction false} AtMostLimit(granted: seq<int>, limit: nat, windowMs: int, from: int)
    requires Rationed(granted, limit, windowMs)
    ensures CountIn(granted, from, from + windowMs) <= limit
  {
    if granted != [] {
      var last := |granted| - 1;
      RationedBefore(granted, last, limit, windowMs);
      AtMostLimit(granted[..last], limit, windowMs, from);
      if from <= granted[last] < from + windowMs {
        CountedAreRecent(granted[..last], granted[last], windowMs, from);
      }
    }
  }

  lemma RationedBefore(granted: seq<int>, n: nat, limit: nat, windowMs: int)
    requires Rationed(granted, limit, windowMs) && n <= |granted|
    ensures Rationed(granted[..n], limit, windowMs)
  {
    forall i | 0 <= i < n
      ensures |Recent(granted[..n][..i], granted[..n][i], windowMs)| < limit
    {
      assert granted[..n][..i] == granted[..i];
    }
  }

  lemma {:induction false} CountedAreRecent(times: seq<int>, now: int, windowMs: int, from: int)
    requires now < from + windowMs
    ensures CountIn(times, from, from + windowMs) <= |Recent(times, now, windowMs)|
  {
    if times != [] {
      CountedAreRecent(times[..|times| - 1], now, windowMs, from);
    }
  }

  lemma RationedOneMore(granted: seq<int>, limit: nat, windowMs: int, now: int)
    requires Rationed(granted, limit, windowMs) && forall i :: 0 <= i < |granted| ==> granted[i] <= now
    requires |Recent(granted, now, windowMs)| < limit
    ensures Rationed(granted + [now], limit, windowMs)
  {
    var after := granted + [now];
    assert granted[..|granted|] == granted;
    forall i | 0 <= i < |after|
      ensures |Recent(after[..i], after[i], windowMs)| < limit
    {
      assert after[..i] == granted[..i];
    }
  }

  /** What is kept for a key is all of its grants that can still count, and the key has been rationed. */
  ghost predicate KeyOk(hits: seq<int>, granted: seq<int>, clock: int, limit: nat, windowMs: int) {
    && (forall now: int :: clock <= now ==> Recent(hits, now, windowMs) == Recent(granted, now, windowMs))
    && Rationed(granted, limit, windowMs)
    && (forall i :: 0 <= i < |granted| ==> granted[i] <= clock)
  }

  lemma KeyWaits(hits: seq<int>, granted: seq<int>, clock: int, now: int, limit: nat, windowMs: int)
    requires KeyOk(hits, granted, clock, limit, windowMs) && clock <= now
    ensures KeyOk(hits, granted, now, limit, windowMs)
  {
  }

  lemma KeyFiltered(hits: seq<int>, granted: seq<int>, now: int, limit: nat, windowMs: int)
    requires KeyOk(hits, granted, now, limit, windowMs)
    ensures KeyOk(Recent(hits, now, windowMs), granted, now, limit, windowMs)
  {
    forall later: int | now <= later
      ensures Recent(Recent(hits, now, windowMs), later, windowMs) == Recent(granted, later, windowMs)
    {
      RecentOfRecent(hits, now, later, windowMs);
    }
  }

  lemma KeyGranted(hits: seq<int>, granted: seq<int>, now: int, limit: nat, windowMs: int)
    requires KeyOk(hits, granted, now, limit, windowMs) && |Recent(granted, now, windowMs)| < limit
    ensures KeyOk(hits + [now], granted + [now], now, limit, windowMs)
  {
    forall later: int | now <= later
      ensures Recent(hits + [now], later, windowMs) == Recent(granted + [now], later, windowMs)
    {
      RecentAppend(hits, now, later, windowMs);
      RecentAppend(granted, now, later, windowMs);
    }
    RationedOneMore(granted, limit, windowMs, now);
  }

  lemma KeyDropped(hits: seq<int>, granted: seq<int>, now: int, limit: nat, windowMs: int)
    requires KeyOk(hits, granted, now, limit, windowMs) && forall i :: 0 <= i < |hits| ==> now - hits[i] >= windowMs
    ensures KeyOk([], granted, now, limit, windowMs)
  {
    forall later: int | now <= later
      ensures Recent([], later, windowMs) == Recent(granted, later, windowMs)
    {
      NothingRecent(hits, later, windowMs);
    }
  }

  class SlidingLimiter {
    const limits: Key -> nat
    const windowMs: int
    const maxKeys: nat
    var hits: map<Key, seq<int>>
    /** Every grant ever given, and the latest time seen. */
    ghost var log: Key -> seq<int>
    ghost var clock: int

    function Hits(key: Key): seq<int>
      reads this
    {
      if key in hits then hits[key] else []
    }

    ghost predicate Valid()
      reads this
    {
      forall key :: KeyOk(Hits(key), log(key), clock, limits(key), windowMs)
    }

    constructor (limits: Key -> nat, windowMs: int, maxKeys: nat, start: int)
      ensures Valid() && this.limits == limits && this.windowMs == windowMs
      ensures forall key :: log(key) == []
    {
      this.limits, this.windowMs, this.maxKeys := limits, windowMs, maxKeys;
      hits, log, clock := map[], _ => [], start;
    }

    /** Grants exactly when the key's own recent grants leave room; the sweep decides nothing. */
    method Allow(key: Key, now: int) returns (ok: bool)
      requires Valid() && clock <= now
      modifies this
      ensures Valid() && clock == now
      ensures ok <==> |Recent(old(log)(key), now, windowMs)| < limits(key)
      ensures log(key) == if ok then old(log)(key) + [now] else old(log)(key)
      ensures forall other :: other != key ==> log(other) == old(log)(other)
    {
      Wait(now);
      var recent := Recent(Hits(key), now, windowMs);
      KeyFiltered(Hits(key), log(key), now, limits(key), windowMs);
      ghost var was := log(key);
      if |recent| >= limits(key) {
        hits := hits[key := recent];
        return false;
      }
      KeyGranted(recent, was, now, limits(key), windowMs);
      hits := hits[key := recent + [now]];
      ghost var before := log;
      log := k => if k == key then was + [now] else before(k);
      if |hits| > maxKeys {
        Sweep(now);
      }
      return true;
    }

    ghost method Wait(now: int)
      requires Valid() && clock <= now
      modifies `clock
      ensures Valid() && clock == now
    {
      forall key
        ensures KeyOk(Hits(key), log(key), now, limits(key), windowMs)
      {
        KeyWaits(Hits(key), log(key), clock, now, limits(key), windowMs);
      }
      clock := now;
    }

    /** Drops the keys with nothing recent. */
    method Sweep(now: int)
      requires Valid() && clock == now
      modifies `hits
      ensures Valid()
    {
      forall key | key in hits && !HasRecent(hits[key], now, windowMs)
        ensures KeyOk([], log(key), now, limits(key), windowMs)
      {
        KeyDropped(hits[key], log(key), now, limits(key), windowMs);
      }
      hits := map k | k in hits && HasRecent(hits[k], now, windowMs) :: hits[k];
    }
  }

  predicate HasRecent(times: seq<int>, now: int, windowMs: int) {
    exists i :: 0 <= i < |times| && now - times[i] < windowMs
  }

  // ── Fixed window ──────────────────────────────────────────────────────────

  datatype Window = Window(count: nat, resetAt: int)

  /** One window of a key's history: when it opened, every request in it, and which were granted. */
  datatype Epoch = Epoch(start: int, granted: seq<int>)

  /** Windows follow one another with a gap; each holds its first request and at most `max` grants. */
  ghost predicate EpochOk(e: Epoch, max: nat, windowMs: int) {
    && 0 < |e.granted| <= Max(max, 1)
    && e.granted[0] == e.start
    && forall i :: 0 <= i < |e.granted| ==> e.start <= e.granted[i] <= e.start + windowMs
  }

  ghost predicate EpochsOk(epochs: seq<Epoch>, max: nat, windowMs: int) {
    && (forall i :: 0 <= i < |epochs| ==> EpochOk(epochs[i], max, windowMs))
    && forall i :: 0 < i < |epochs| ==> epochs[i - 1].start + windowMs < epochs[i].start
  }

  /** All grants of a history within `[from, from + windowMs)`. */
  ghost function GrantsIn(epochs: seq<Epoch>, from: int, windowMs: int): nat {
    if epochs == [] then 0
    else GrantsIn(epochs[..|epochs| - 1], from, windowMs) + CountIn(epochs[|epochs| - 1].granted, from, from + windowMs)
  }

  lemma {:induction false} CountNone(times: seq<int>, from: int, to: int)
    requires forall i :: 0 <= i < |times| ==> !(from <= times[i] < to)
    ensures CountIn(times, from, to) == 0
  {
    if times != [] {
      CountNone(times[..|times| - 1], from, to);
    }
  }

  /** Whoever counts one instant finds one. */
  lemma {:induction false} Counted(times: seq<int>, from: int, to: int) returns (i: nat)
    requires CountIn(times, from, to) > 0
    ensures i < |times| && from <= times[i] < to
  {
    var last := |times| - 1;
    i := last;
    if !(from <= times[last] < to) {
      i := Counted(times[..last], from, to);
    }
  }

  lemma {:induction false} CountMissesFirst(times: seq<int>, from: int, to: int)
    requires times != [] && times[0] < from
    ensures CountIn(times, from, to) < |times|
  {
    if |times| > 1 {
      CountMissesFirst(times[..|times| - 1], from, to);
    }
  }

  lemma {:induction false} AllEarlier(epochs: seq<Epoch>, max: nat, windowMs: int, from: int)
    requires EpochsOk(epochs, max, windowMs) && windowMs >= 0
    requires epochs != [] ==> epochs[|epochs| - 1].start + windowMs < from
    ensures GrantsIn(epochs, from, windowMs) == 0
  {
    if epochs != [] {
      var last := |epochs| - 1;
      AllEarlier(epochs[..last], max, windowMs, from);
      assert EpochOk(epochs[last], max, windowMs);
      CountNone(epochs[last].granted, from, from + windowMs);
    }
  }

  /** A window that opened before the interval gives it all but its first grant, and earlier windows nothing. */
  lemma OpenedEarlier(epochs: seq<Epoch>, max: nat, windowMs: int, from: int)
    requires EpochsOk(epochs, max, windowMs) && windowMs >= 0
    requires epochs != [] ==> epochs[|epochs| - 1].start < from
    ensures GrantsIn(epochs, from, windowMs) <= Max(max, 1) - 1
  {
    if epochs != [] {
      var last := |epochs| - 1;
      assert EpochOk(epochs[last], max, windowMs);
      AllEarlier(epochs[..last], max, windowMs, from);
      CountMissesFirst(epochs[last].granted, from, from + windowMs);
    }
  }

  /** In no half-open interval of the window's length are there more than twice `max`, less one, grants. */
  lemma {:induction false} AtMostTwiceLessOne(epochs: seq<Epoch>, max: nat, windowMs: int, from: int)
    requires EpochsOk(epochs, max, windowMs) && windowMs >= 0
    ensures GrantsIn(epochs, from, windowMs) <= 2 * Max(max, 1) - 1
  {
    if epochs != [] {
      var last := |epochs| - 1;
      assert EpochOk(epochs[last], max, windowMs);
      if CountIn(epochs[last].granted, from, from + windowMs) == 0 {
        AtMostTwiceLessOne(epochs[..last], max, windowMs, from);
      } else {
        var i := Counted(epochs[last].granted, from, from + windowMs);
        OpenedEarlier(epochs[..last], max, windowMs, from);
      }
    }
  }

  /** The counter in memory stands for the last window of the history. */
  ghost predicate BucketOk(bucket: Option<Window>, epochs: seq<Epoch>, clock: int, max: nat, windowMs: int) {
    && EpochsOk(epochs, max, windowMs)
    && (bucket.None? <==> epochs == [])
    && (bucket.Some? ==>
          && var last := epochs[|epochs| - 1];
          && bucket.value.count >= 1
          && bucket.value.resetAt == last.start + windowMs
          && |last.granted| == Min(bucket.value.count, Max(max, 1))
          && last.start <= clock)
  }

  /** The history after a request that opens a new window, or is granted or refused in the last one. */
  function Requested(epochs: seq<Epoch>, now: int, max: nat, windowMs: int): seq<Epoch> {
    if epochs == [] || epochs[|epochs| - 1].start + windowMs < now then epochs + [Epoch(now, [now])]
    else
      var last := epochs[|epochs| - 1];
      if |last.granted| < max then epochs[|epochs| - 1 := last.(granted := last.granted + [now])] else epochs
  }

  lemma RequestKeeps(bucket: Option<Window>, epochs: seq<Epoch>, clock: int, now: int, max: nat, windowMs: int,
                     after: Window)
    requires BucketOk(bucket, epochs, clock, max, windowMs) && clock <= now && windowMs >= 0
    requires after == if bucket.None? || bucket.value.resetAt < now then Window(1, now + windowMs)
      else bucket.value.(count := bucket.value.count + 1)
    ensures BucketOk(Some(after), Requested(epochs, now, max, windowMs), now, max, windowMs)
  {
    var epochs' := Requested(epochs, now, max, windowMs);
    forall i | 0 <= i < |epochs'|
      ensures EpochOk(epochs'[i], max, windowMs)
    {
      assert i < |epochs| ==> EpochOk(epochs[i], max, windowMs);
    }
  }

  class FixedWindow {
    const limits: Key -> nat
    const windows: Key -> nat
    var buckets: map<Key, Window>
    /** Every key's windows so far, and the latest time seen. */
    ghost var history: Key -> seq<Epoch>
    ghost var clock: int

    function Bucket(key: Key): Option<Window>
      reads this
    {
      if key in buckets then Some(buckets[key]) else None
    }

    ghost predicate Valid()
      reads this
    {
      forall key :: BucketOk(Bucket(key), history(key), clock, limits(key), windows(key))
    }

    constructor (limits: Key -> nat, windows: Key -> nat, start: int)
      ensures Valid() && this.limits == limits && this.windows == windows && clock == start
      ensures forall key :: history(key) == []
    {
      this.limits, this.windows := limits, windows;
      buckets, history, clock := map[], _ => [], start;
    }

    ghost method Wait(now: int)
      requires Valid() && clock <= now
      modifies `clock
      ensures Valid() && clock == now
    {
      clock := now;
    }

    /** A request opens a window, or counts in the one that is open; what is granted goes into the history. */
    method RateLimit(key: Key, now: int) returns (ok: bool)
      requires Valid() && clock <= now
      modifies this
      ensures Valid() && clock == now
      ensures history(key) == Requested(old(history)(key), now, limits(key), windows(key))
      ensures forall other :: other != key ==> history(other) == old(history)(other)
      ensures ok <==> history(key) != old(history)(key)
    {
      Wait(now);
      ghost var before := history;
      var w := Bucket(key);
      var after :=
        if w.None? || w.value.resetAt < now then Window(1, now + windows(key))
        else w.value.(count := w.value.count + 1);
      RequestKeeps(w, before(key), now, now, limits(key), windows(key), after);
      RequestAnswer(w, before(key), now, limits(key), windows(key), after);
      buckets := buckets[key := after];
      history := k => if k == key then Requested(before(key), now, limits(key), windows(key)) else before(k);
      ok := w.None? || w.value.resetAt < now || after.count <= limits(key);
    }
  }

  lemma RequestAnswer(bucket: Option<Window>, epochs: seq<Epoch>, now: int, max: nat, windowMs: int, after: Window)
    requires BucketOk(bucket, epochs, now, max, windowMs)
    requires after == if bucket.None? || bucket.value.resetAt < now then Window(1, now + windowMs)
      else bucket.value.(count := bucket.value.count + 1)
    ensures Requested(epochs, now, max, windowMs) != epochs <==>
      bucket.None? || bucket.value.resetAt < now || after.count <= max
  {
    if epochs != [] {
      var last := |epochs| - 1;
      assert EpochOk(epochs[last], max, windowMs);
      var granted := epochs[last].(granted := epochs[last].granted + [now]);
      assert |epochs[last := granted][last].granted| == |epochs[last].granted| + 1;
    }
  }

  /** The bound is reached: `max` requests until a window closes and `max` more the instant after. */
  method Burst(limiter: FixedWindow, key: Key, max: nat, windowMs: nat)
    requires limiter.Valid() && limiter.clock == 0 && limiter.history(key) == []
    requires limiter.limits(key) == max >= 1 && limiter.windows(key) == windowMs >= 2
    modifies limiter
    ensures GrantsIn(limiter.history(key), 2, windowMs) == 2 * max - 1
  {
    var ok := limiter.RateLimit(key, 0);
    assert [0] + Times(0, windowMs) == [0];
    for i := 0 to max - 1
      invariant limiter.Valid() && limiter.clock <= windowMs
      invariant limiter.history(key) == [Epoch(0, [0] + Times(i, windowMs))]
    {
      OneMore([0], i, windowMs);
      ok := limiter.RateLimit(key, windowMs);
    }
    ok := limiter.RateLimit(key, windowMs + 1);
    ghost var first := Epoch(0, [0] + Times(max - 1, windowMs));
    SecondWindow(limiter, key, max, windowMs, first);
    BurstCount(max, windowMs, first, Epoch(windowMs + 1, [] + Times(max, windowMs + 1)));
  }

  method SecondWindow(limiter: FixedWindow, key: Key, max: nat, windowMs: nat, ghost first: Epoch)
    requires limiter.Valid() && limiter.clock == windowMs + 1
    requires limiter.history(key) == [first, Epoch(windowMs + 1, [windowMs + 1])]
    requires limiter.limits(key) == max >= 1 && limiter.windows(key) == windowMs
    modifies limiter
    ensures limiter.history(key) == [first, Epoch(windowMs + 1, [] + Times(max, windowMs + 1))]
  {
    assert [] + Times(1, windowMs + 1) == [windowMs + 1];
    for i := 1 to max
      invariant limiter.Valid() && limiter.clock == windowMs + 1
      invariant limiter.history(key) == [first, Epoch(windowMs + 1, [] + Times(i, windowMs + 1))]
    {
      OneMore([], i, windowMs + 1);
      var ok := limiter.RateLimit(key, windowMs + 1);
    }
  }

  lemma OneMore(before: seq<int>, n: nat, t: int)
    ensures before + Times(n, t) + [t] == before + Times(n + 1, t)
  {
  }

  ghost function Times(n: nat, t: int): seq<int> { seq(n, _ => t) }

  lemma BurstCount(max: nat, windowMs: nat, first: Epoch, second: Epoch)
    requires max >= 1 && windowMs >= 2
    requires first == Epoch(0, [0] + Times(max - 1, windowMs))
    requires second == Epoch(windowMs + 1, [] + Times(max, windowMs + 1))
    ensures GrantsIn([first, second], 2, windowMs) == 2 * max - 1
  {
    CountRepeated(max, windowMs + 1, 2, 2 + windowMs);
    assert [] + Times(max, windowMs + 1) == Times(max, windowMs + 1);
    CountAfter(0, max - 1, windowMs, 2, 2 + windowMs);
    TwoEpochs(first, second, 2, windowMs);
  }

  lemma TwoEpochs(first: Epoch, second: Epoch, from: int, windowMs: int)
    ensures GrantsIn([first, second], from, windowMs)
      == CountIn(first.granted, from, from + windowMs) + CountIn(second.granted, from, from + windowMs)
  {
    assert [first, second][..1] == [first];
    assert GrantsIn([first], from, windowMs) ==
      GrantsIn([], from, windowMs) + CountIn(first.granted, from, from + windowMs) by {
      assert [first][..0] == [];
    }
  }

  lemma {:induction false} CountAfter(t0: int, n: nat, t: int, from: int, to: int)
    requires t0 < from <= t < to
    ensures CountIn([t0] + Times(n, t), from, to) == n
  {
    if n > 0 {
      CountAfter(t0, n - 1, t, from, to);
      assert ([t0] + Times(n, t))[..n] == [t0] + Times(n - 1, t);
    }
  }

  lemma {:induction false} CountRepeated(n: nat, t: int, from: int, to: int)
    requires from <= t < to
    ensures CountIn(Times(n, t), from, to) == n
  {
    if n > 0 {
      CountRepeated(n - 1, t, from, to);
      assert Times(n, t)[..n - 1] == Times(n - 1, t);
    }
  }
}
