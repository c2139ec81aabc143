/** The monthly streaming allowance: what is counted, who is warned and when it stops. */
module Budget {
  import opened Bytes

  /** The shares of the allowance, in percent, at which owners hear about it. */
  const WARN_AT := [60, 80, 95, 100]

  predicate Reached(percent: nat, bytes: nat, limit: nat) { 100 * bytes >= percent * limit }

  predicate Crosses(percent: nat, before: nat, after: nat, limit: nat) {
    !Reached(percent, before, limit) && Reached(percent, after, limit)
  }

  /** `filter(…).pop()`: the highest of the first `n` shares this addition crossed. */
  function Crossed(before: nat, after: nat, limit: nat, n: nat): Option<nat>
    requires n <= |WARN_AT|
  {
    if n == 0 then None
    else if Crosses(WARN_AT[n - 1], before, after, limit) then Some(WARN_AT[n - 1])
    else Crossed(before, after, limit, n - 1)
  }

  /** The highest share reached so far. */
  function Highest(bytes: nat, limit: nat): Option<nat> {
    if Reached(100, bytes, limit) then Some(100)
    else if Reached(95, bytes, limit) then Some(95)
    else if Reached(80, bytes, limit) then Some(80)
    else if Reached(60, bytes, limit) then Some(60)
    else None
  }

  lemma CrossedIsHighest(before: nat, after: nat, limit: nat)
    requires before <= after && limit > 0
    ensures Highest(after, limit) ==
      if Crossed(before, after, limit, 4).Some? then Crossed(before, after, limit, 4) else Highest(before, limit)
    ensures Crossed(before, after, limit, 4).Some? ==>
      Highest(before, limit).None? || Highest(before, limit).value < Crossed(before, after, limit, 4).value
  {
    assert Crossed(before, after, limit, 4) ==
      if Crosses(100, before, after, limit) then Some(100)
      else if Crosses(95, before, after, limit) then Some(95)
      else if Crosses(80, before, after, limit) then Some(80)
      else if Crosses(60, before, after, limit) then Some(60)
      else None by {
      assert Crossed(before, after, limit, 2) ==
        if Crosses(80, before, after, limit) then Some(80) else if Crosses(60, before, after, limit) then Some(60)
        else None by {
        assert Crossed(before, after, limit, 0) == None;
      }
    }
  }

  /** What an organization's owners have been told is a strictly rising list that ends at the highest share reached. */
  ghost predicate WarningsOk(warnings: seq<nat>, bytes: nat, limit: nat) {
    && (forall i, j :: 0 <= i < j < |warnings| ==> warnings[i] < warnings[j])
    && (Highest(bytes, limit).None? <==> warnings == [])
    && (warnings != [] ==> Highest(bytes, limit) == Some(warnings[|warnings| - 1]))
  }

  function Warned(warnings: seq<nat>, before: nat, after: nat, limit: nat): seq<nat> {
    var crossed := Crossed(before, after, limit, 4);
    if crossed.Some? then warnings + [crossed.value] else warnings
  }

  lemma WarningsKept(warnings: seq<nat>, before: nat, after: nat, limit: nat)
    requires WarningsOk(warnings, before, limit) && before <= after && limit > 0
    ensures WarningsOk(Warned(warnings, before, after, limit), after, limit)
  {
    CrossedIsHighest(before, after, limit);
  }

  // ── Transfers in flight ───────────────────────────────────────────────────

  /**
   * A transfer still running, of at most `size` bytes; or ended, counted for the platform and not yet for its
   * organization.
   */
  datatype Flight = Running(org: nat, size: nat) | Counted(org: nat, bytes: nat)

  /**
   * What a flight may still add to the platform's total, or to one organization's; or what only the platform has
   * counted.
   */
  datatype Scale = Platform | Org(org: nat) | Unsettled

  function Weight(f: Flight, scale: Scale): nat {
    match scale
    case Platform => if f.Running? then f.size else 0
    case Org(o) => if f.org != o then 0 else if f.Running? then f.size else f.bytes
    case Unsettled => if f.Counted? then f.bytes else 0
  }

  function Load(flights: seq<Flight>, scale: Scale): nat {
    if flights == [] then 0 else Load(flights[..|flights| - 1], scale) + Weight(flights[|flights| - 1], scale)
  }

  function Removed(flights: seq<Flight>, i: nat): seq<Flight>
    requires i < |flights|
  {
    flights[..i] + flights[i + 1..]
  }

  lemma {:induction false} LoadChanged(flights: seq<Flight>, i: nat, f: Flight, scale: Scale)
    requires i < |flights|
    ensures Load(flights[i := f], scale) == Load(flights, scale) - Weight(flights[i], scale) + Weight(f, scale)
  {
    var last := |flights| - 1;
    if i < last {
      LoadChanged(flights[..last], i, f, scale);
      assert flights[i := f][..last] == flights[..last][i := f];
    } else {
      assert flights[i := f][..last] == flights[..last];
    }
  }

  lemma {:induction false} LoadRemoved(flights: seq<Flight>, i: nat, scale: Scale)
    requires i < |flights|
    ensures Load(Removed(flights, i), scale) == Load(flights, scale) - Weight(flights[i], scale)
  {
    var last := |flights| - 1;
    if i < last {
      LoadRemoved(flights[..last], i, scale);
      assert Removed(flights, i)[..last - 1] == Removed(flights[..last], i);
    } else {
      assert Removed(flights, i) == flights[..last];
    }
  }

  lemma LoadAdded(flights: seq<Flight>, f: Flight, scale: Scale)
    ensures Load(flights + [f], scale) == Load(flights, scale) + Weight(f, scale)
  {
    assert (flights + [f])[..|flights|] == flights;
  }

  function Sum(usage: seq<nat>): nat { if usage == [] then 0 else Sum(usage[..|usage| - 1]) + usage[|usage| - 1] }

  lemma {:induction false} SumChanged(usage: seq<nat>, i: nat, v: nat)
    requires i < |usage|
    ensures Sum(usage[i := v]) == Sum(usage) - usage[i] + v
  {
    var last := |usage| - 1;
    if i < last {
      SumChanged(usage[..last], i, v);
      assert usage[i := v][..last] == usage[..last][i := v];
    } else {
      assert usage[i := v][..last] == usage[..last];
    }
  }

  // ── A month ───────────────────────────────────────────────────────────────

  datatype Limits = Limits(platform: nat, org: nat)

  /**
   * One month's usage rows, the transfers in flight and the warnings sent. `ceiling` and `ceilings` remember the
   * limit plus everything in flight at the last admission, for the platform and for each organization.
   */
  datatype Month = Month(
    total: nat, usage: seq<nat>, flights: seq<Flight>, warnings: seq<seq<nat>>, ceiling: nat, ceilings: seq<nat>)

  datatype Event = Admit(org: nat, size: nat) | End(i: nat, bytes: nat) | Settle(i: nat)

  /** `budgetRefusal`: an allowance used up refuses the transfer. */
  predicate Refuses(m: Month, l: Limits, org: nat)
    requires org < |m.usage|
  {
    m.total >= l.platform || m.usage[org] >= l.org
  }

  predicate Enabled(m: Month, l: Limits, e: Event) {
    match e
    case Admit(org, _) => org < |m.usage| == |m.ceilings| && !Refuses(m, l, org)
    case End(i, bytes) => i < |m.flights| && m.flights[i].Running? && bytes <= m.flights[i].size
    case Settle(i) => i < |m.flights| && m.flights[i].Counted? && m.flights[i].org < |m.usage| == |m.warnings|
  }

  function Next(m: Month, l: Limits, e: Event): Month
    requires Enabled(m, l, e)
  {
    match e
    case Admit(org, size) =>
      var flights := m.flights + [Running(org, size)];
      m.(flights := flights, ceiling := l.platform + Load(flights, Platform),
         ceilings := m.ceilings[org := l.org + Load(flights, Org(org))])
    case End(i, bytes) =>
      if bytes == 0 then m.(flights := Removed(m.flights, i))
      else m.(total := m.total + bytes, flights := m.flights[i := Counted(m.flights[i].org, bytes)])
    case Settle(i) =>
      var org, bytes := m.flights[i].org, m.flights[i].bytes;
      var after := m.usage[org] + bytes;
      m.(usage := m.usage[org := after], flights := Removed(m.flights, i),
         warnings := m.warnings[org := Warned(m.warnings[org], m.usage[org], after, l.org)])
  }

  /** The platform has counted what its organizations have, and what is still on its way to them. */
  predicate Conserved(m: Month) { m.total == Sum(m.usage) + Load(m.flights, Unsettled) }

  /** Whatever is in flight will not take usage to the limit plus what was in flight at the last admission. */
  ghost predicate UnderCeilings(m: Month)
    requires |m.ceilings| == |m.usage|
  {
    && Below(m.total + Load(m.flights, Platform), m.ceiling)
    && forall o :: 0 <= o < |m.usage| ==> Below(m.usage[o] + Load(m.flights, Org(o)), m.ceilings[o])
  }

  predicate Below(bytes: nat, ceiling: nat) { bytes == 0 || bytes < ceiling }

  ghost predicate Shaped(m: Month) {
    && |m.usage| == |m.warnings| == |m.ceilings|
    && forall i :: 0 <= i < |m.flights| ==> m.flights[i].org < |m.usage|
  }

  ghost predicate Inv(m: Month, l: Limits) {
    && Shaped(m)
    && Conserved(m)
    && UnderCeilings(m)
    && forall o :: 0 <= o < |m.usage| ==> WarningsOk(m.warnings[o], m.usage[o], l.org)
  }

  /** What an event adds to the load. */
  function Gained(m: Month, e: Event, scale: Scale): int
    requires e.Admit? || e.i < |m.flights|
  {
    match e
    case Admit(org, size) => Weight(Running(org, size), scale)
    case End(i, bytes) => Weight(Counted(m.flights[i].org, bytes), scale) - Weight(m.flights[i], scale)
    case Settle(i) => 0 - Weight(m.flights[i], scale)
  }

  lemma LoadNext(m: Month, l: Limits, e: Event, scale: Scale)
    requires Shaped(m) && Enabled(m, l, e)
    ensures Load(Next(m, l, e).flights, scale) == Load(m.flights, scale) + Gained(m, e, scale)
  {
    match e {
      case Admit(org, size) => LoadAdded(m.flights, Running(org, size), scale);
      case End(i, bytes) =>
        if bytes == 0 {
          LoadRemoved(m.flights, i, scale);
        } else {
          LoadChanged(m.flights, i, Counted(m.flights[i].org, bytes), scale);
        }
      case Settle(i) => LoadRemoved(m.flights, i, scale);
    }
  }

  lemma ConservedKept(m: Month, l: Limits, e: Event)
    requires Shaped(m) && Conserved(m) && Enabled(m, l, e)
    ensures Conserved(Next(m, l, e))
  {
    LoadNext(m, l, e, Unsettled);
    if e.Settle? {
      SumChanged(m.usage, m.flights[e.i].org, m.usage[m.flights[e.i].org] + m.flights[e.i].bytes);
    }
  }

  lemma CeilingsKept(m: Month, l: Limits, e: Event)
    requires Shaped(m) && UnderCeilings(m) && Enabled(m, l, e)
    ensures Shaped(Next(m, l, e)) && UnderCeilings(Next(m, l, e))
  {
    LoadNext(m, l, e, Platform);
    forall o | 0 <= o < |m.usage|
      ensures Below(Next(m, l, e).usage[o] + Load(Next(m, l, e).flights, Org(o)), Next(m, l, e).ceilings[o])
    {
      LoadNext(m, l, e, Org(o));
      LoadIsPositive(m, e, o);
    }
    PlatformIsPositive(m, e);
  }

  /** A flight's own weight is part of the load. */
  lemma {:induction false} LoadCovers(flights: seq<Flight>, i: nat, scale: Scale)
    requires i < |flights|
    ensures Weight(flights[i], scale) <= Load(flights, scale)
  {
    if i < |flights| - 1 {
      LoadCovers(flights[..|flights| - 1], i, scale);
    }
  }

  lemma LoadIsPositive(m: Month, e: Event, o: nat)
    requires Shaped(m)
    ensures !e.Admit? && e.i < |m.flights| ==> Weight(m.flights[e.i], Org(o)) <= Load(m.flights, Org(o))
  {
    if !e.Admit? && e.i < |m.flights| {
      LoadCovers(m.flights, e.i, Org(o));
    }
  }

  lemma PlatformIsPositive(m: Month, e: Event)
    requires Shaped(m)
    ensures !e.Admit? && e.i < |m.flights| ==> Weight(m.flights[e.i], Platform) <= Load(m.flights, Platform)
  {
    if !e.Admit? && e.i < |m.flights| {
      LoadCovers(m.flights, e.i, Platform);
    }
  }

  lemma AllWarned(m: Month, l: Limits, e: Event)
    requires Inv(m, l) && Enabled(m, l, e) && l.org > 0
    ensures forall o :: 0 <= o < |Next(m, l, e).usage| && o < |Next(m, l, e).warnings| ==>
      WarningsOk(Next(m, l, e).warnings[o], Next(m, l, e).usage[o], l.org)
  {
    if e.Settle? {
      var org := m.flights[e.i].org;
      WarningsKept(m.warnings[org], m.usage[org], m.usage[org] + m.flights[e.i].bytes, l.org);
    }
  }

  lemma InvKept(m: Month, l: Limits, e: Event)
    requires Inv(m, l) && Enabled(m, l, e) && l.org > 0
    ensures Inv(Next(m, l, e), l)
  {
    ConservedKept(m, l, e);
    CeilingsKept(m, l, e);
    AllWarned(m, l, e);
  }

  // ── Runs ──────────────────────────────────────────────────────────────────

  predicate Start(m: Month) {
    && m.total == 0 && m.flights == []
    && |m.usage| == |m.warnings| == |m.ceilings|
    && forall o :: 0 <= o < |m.usage| ==> m.usage[o] == 0 && m.warnings[o] == []
  }

  ghost predicate Legal(m: Month, l: Limits, events: seq<Event>)
    decreases |events|
  {
    events == [] || (Enabled(m, l, events[0]) && Legal(Next(m, l, events[0]), l, events[1..]))
  }

  ghost function After(m: Month, l: Limits, events: seq<Event>): Month
    requires Legal(m, l, events)
    decreases |events|
  {
    if events == [] then m else After(Next(m, l, events[0]), l, events[1..])
  }

  lemma {:induction false} LegalKeepsInv(m: Month, l: Limits, events: seq<Event>)
    requires Inv(m, l) && Legal(m, l, events) && l.org > 0
    ensures Inv(After(m, l, events), l)
    decreases |events|
  {
    if events != [] {
      InvKept(m, l, events[0]);
      LegalKeepsInv(Next(m, l, events[0]), l, events[1..]);
    }
  }

  lemma {:induction false} NothingUsed(usage: seq<nat>)
    requires forall o :: 0 <= o < |usage| ==> usage[o] == 0
    ensures Sum(usage) == 0
  {
    if usage != [] {
      NothingUsed(usage[..|usage| - 1]);
    }
  }

  /**
   * In every run of a month: when nothing is in flight the platform's total is the sum over the organizations;
   * every organization has been told each share at most once, in rising order, the highest it reached last; and
   * usage is below the limit plus the transfers in flight at the last admission.
   */
  lemma AlwaysInBudget(m: Month, l: Limits, events: seq<Event>, org: nat)
    requires Start(m) && Legal(m, l, events) && l.org > 0 && org < |m.usage|
    ensures
      var now := After(m, l, events);
      && (now.flights == [] ==> now.total == Sum(now.usage))
      && Below(now.total, now.ceiling)
      && org < |now.usage| == |now.warnings| == |now.ceilings|
      && WarningsOk(now.warnings[org], now.usage[org], l.org)
      && (now.warnings[org] == [] <==> 100 * now.usage[org] < 60 * l.org)
      && (100 in now.warnings[org] <==> now.usage[org] >= l.org)
      && Below(now.usage[org], now.ceilings[org])
  {
    NothingUsed(m.usage);
    LegalKeepsInv(m, l, events);
    SameOrganizations(m, l, events);
    LastIsHighest(After(m, l, events).warnings[org], After(m, l, events).usage[org], l.org);
  }

  lemma LastIsHighest(warnings: seq<nat>, bytes: nat, limit: nat)
    requires WarningsOk(warnings, bytes, limit)
    ensures warnings == [] <==> 100 * bytes < 60 * limit
    ensures 100 in warnings <==> bytes >= limit
  {
    if warnings != [] {
      assert warnings[|warnings| - 1] <= 100;
      if 100 in warnings {
        var i :| 0 <= i < |warnings| && warnings[i] == 100;
        assert i == |warnings| - 1;
      }
    }
  }

  /**
   * Nobody is refused while their organization and the platform have allowance left, whatever is in flight; and
   * once it is used up, everybody is refused for the rest of the month.
   */
  lemma RefusedForTheMonth(m: Month, l: Limits, events: seq<Event>, org: nat, size: nat)
    requires Legal(m, l, events) && org < |m.usage| == |m.ceilings|
    ensures Enabled(m, l, Admit(org, size)) <==> m.total < l.platform && m.usage[org] < l.org
    ensures !Enabled(m, l, Admit(org, size)) ==> !Enabled(After(m, l, events), l, Admit(org, size))
  {
    UsageGrows(m, l, events, org);
  }

  lemma {:induction false} UsageGrows(m: Month, l: Limits, events: seq<Event>, org: nat)
    requires Legal(m, l, events) && org < |m.usage| == |m.ceilings|
    ensures var now := After(m, l, events);
      && |now.usage| == |now.ceilings| == |m.usage|
      && m.total <= now.total && m.usage[org] <= now.usage[org]
    decreases |events|
  {
    if events != [] {
      UsageGrows(Next(m, l, events[0]), l, events[1..], org);
    }
  }

  lemma {:induction false} SameOrganizations(m: Month, l: Limits, events: seq<Event>)
    requires Legal(m, l, events)
    ensures |After(m, l, events).usage| == |m.usage|
    decreases |events|
  {
    if events != [] {
      SameOrganizations(Next(m, l, events[0]), l, events[1..]);
    }
  }

  // ── The routes' two calls ─────────────────────────────────────────────────

  class Ledger {
    const limits: Limits
    var total: nat
    var usage: seq<nat>
    var warnings: seq<seq<nat>>

    /** `recordBytes`: the platform's row and then the organization's, and a warning when a share was crossed. */
    method RecordBytes(org: nat, bytes: nat, ghost m: Month, ghost i: nat)
      requires org < |usage| == |warnings| && i < |m.flights|
      requires m.flights[i].Running? && m.flights[i].org == org && bytes <= m.flights[i].size
      requires total == m.total && usage == m.usage && warnings == m.warnings
      modifies `total, `usage, `warnings
      ensures bytes == 0 ==> total == old(total) && usage == old(usage) && warnings == old(warnings)
      ensures bytes > 0 ==>
        var counted := Next(m, limits, End(i, bytes));
        Enabled(counted, limits, Settle(i))
        && var settled := Next(counted, limits, Settle(i));
           total == settled.total && usage == settled.usage && warnings == settled.warnings
    {
      if bytes == 0 {
        return;
      }
      total := total + bytes;
      var before := usage[org];
      usage := usage[org := before + bytes];
      var crossed: Option<nat> := None;
      for k := 0 to |WARN_AT|
        invariant crossed == Crossed(before, before + bytes, limits.org, k)
      {
        if Crosses(WARN_AT[k], before, before + bytes, limits.org) {
          crossed := Some(WARN_AT[k]);
        }
      }
      if crossed.Some? {
        warnings := warnings[org := warnings[org] + [crossed.value]];
      }
      assert old(warnings)[org := old(warnings)[org]] == old(warnings);
    }
  }
}
