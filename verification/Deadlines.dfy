/** When a deadline starts running for one person, and whether they are late. */
module Deadlines {
  import opened Bytes

  const DAY_MS := 86400000

  datatype Status = Assigned | Available | InProgress | Completed | Expired

  datatype Record = Record(status: Status, completedAt: Option<int>, validUntil: Option<int>)

  predicate IsCompliant(record: Option<Record>, now: int) {
    record.Some? && record.value.status.Completed?
    && (record.value.validUntil.None? || record.value.validUntil.value > now)
  }

  predicate HasLapsed(record: Option<Record>, now: int) {
    record.Some? && record.value.status.Completed? && record.value.validUntil.Some?
    && record.value.validUntil.value <= now
  }

  function EffectiveStatus(record: Option<Record>, mandatory: bool, now: int): Status {
    if record.None? then (if mandatory then Assigned else Available)
    else if HasLapsed(record, now) then Expired
    else record.value.status
  }

  predicate IsPastDeadline(start: int, deadlineDays: Option<nat>, now: int) {
    deadlineDays.Some? && start + deadlineDays.value * DAY_MS < now
  }

  /** The course reached the person again at `at`: their completion lapsed, or an edition expired it. */
  predicate Reopened(record: Option<Record>, resets: seq<int>, now: int, at: int) {
    && record.Some?
    && record.value.completedAt.Some?
    && at <= now
    && (record.value.validUntil == Some(at) || (at in resets && at > record.value.completedAt.value))
  }

  /** The last time the course reached the person. */
  ghost predicate IsStart(start: int, reachedAt: int, record: Option<Record>, resets: seq<int>, now: int) {
    && (start == reachedAt || Reopened(record, resets, now, start))
    && reachedAt <= start
    && forall at :: Reopened(record, resets, now, at) ==> at <= start
  }

  method DeadlineStartsAt(reachedAt: int, record: Option<Record>, resets: seq<int>, now: int) returns (start: int)
    ensures IsStart(start, reachedAt, record, resets, now)
  {
    start := reachedAt;
    if record.None? || record.value.completedAt.None? {
      return;
    }
    assert start == reachedAt;
    var completedAt, validUntil := record.value.completedAt.value, record.value.validUntil;
    var reopenings: seq<int> := [];
    if validUntil.Some? && validUntil.value <= now {
      reopenings := [validUntil.value];
    }
    for i := 0 to |resets|
      invariant forall at ::
        at in reopenings <==> at <= now && (validUntil == Some(at) || (at in resets[..i] && at > completedAt))
    {
      if resets[i] > completedAt && resets[i] <= now {
        reopenings := reopenings + [resets[i]];
      }
    }
    assert resets[..|resets|] == resets;
    assert forall at :: at in reopenings <==> Reopened(record, resets, now, at);
    for i := 0 to |reopenings|
      invariant start == reachedAt || start in reopenings
      invariant reachedAt <= start && forall k :: 0 <= k < i ==> reopenings[k] <= start
    {
      if reopenings[i] > start {
        start := reopenings[i];
      }
    }
  }

  /** Asking only for the editions that landed after the completion changes nothing. */
  lemma LaterEditionsSuffice(a: int, b: int, reachedAt: int, record: Option<Record>, resets: seq<int>, later: seq<int>,
                             now: int)
    requires IsStart(a, reachedAt, record, resets, now) && IsStart(b, reachedAt, record, later, now)
    requires record.Some? && record.value.completedAt.Some? ==>
      forall at :: at in later <==> at in resets && at > record.value.completedAt.value
    ensures a == b
  {
    assert Reopened(record, resets, now, a) <==> Reopened(record, later, now, a);
    assert Reopened(record, resets, now, b) <==> Reopened(record, later, now, b);
  }

  /** Late exactly when the days the deadline promises have passed since every time the course reached the person. */
  lemma LateMeansAFullTerm(start: int, reachedAt: int, record: Option<Record>, resets: seq<int>, days: nat, now: int)
    requires IsStart(start, reachedAt, record, resets, now)
    ensures IsPastDeadline(start, Some(days), now) <==>
      && now - reachedAt > days * DAY_MS
      && forall at :: Reopened(record, resets, now, at) ==> now - at > days * DAY_MS
  {
  }

  /** A completion counts until the instant it lapses; then it reads as expired and opens a whole new term. */
  lemma LapseOpensATerm(record: Record, start: int, reachedAt: int, resets: seq<int>, mandatory: bool, days: nat,
                        now: int)
    requires record.status.Completed? && record.completedAt.Some?
    requires IsStart(start, reachedAt, Some(record), resets, now)
    ensures IsCompliant(Some(record), now) <==> (record.validUntil.Some? ==> now < record.validUntil.value)
    ensures IsCompliant(Some(record), now) <==> EffectiveStatus(Some(record), mandatory, now) == Completed
    ensures !IsCompliant(Some(record), now) <==> EffectiveStatus(Some(record), mandatory, now) == Expired
    ensures !IsCompliant(Some(record), now) && IsPastDeadline(start, Some(days), now) ==>
      record.validUntil.value + days * DAY_MS < now
  {
    if !IsCompliant(Some(record), now) {
      assert Reopened(Some(record), resets, now, record.validUntil.value);
    }
  }
}
