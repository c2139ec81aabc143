/**
 * Two promises about deadlines that hold only on some tables, with the tables they hold on: that a
 * person's terms do not depend on the order of rows, and that no two views disagree about who is late.
 */
module Lateness {
  import opened Bytes
  import opened Deadlines
  import opened Decimal
  import opened Reach
  import opened RoleTree

  /** The person's own placements and the deployed course placements, each in some order. */
  ghost predicate Listings(t: Tables, person: nat, mine: seq<Occupant>, placed: seq<Placed>) {
    && Lists(mine, set o | o in t.occupants && o.person == person)
    && Lists(placed, set cp | cp in t.placed && cp.course in t.courses && !t.courses[cp.course].withdrawn)
  }

  /** The ways one course reaches a person. */
  ghost function Seen(t: Tables, person: nat, course: nat): set<Sighting>
    requires t.Valid()
  {
    ForCourse(t.SightingsOf(person), course)
  }

  /** A table's rows, beginning with a given one. */
  lemma {:induction false} ListingFrom<T(!new)>(first: T, table: set<T>) returns (rows: seq<T>)
    requires first in table
    ensures rows != [] && rows[0] == first && Lists(rows, table) && Distinct(rows)
    decreases |table|
  {
    if table == {first} {
      rows := [first];
    } else {
      var x :| x in table && x != first;
      var rest := ListingFrom(first, table - {x});
      rows := rest + [x];
      assert forall y :: y in rows <==> y in rest || y == x;
    }
  }

  lemma SomeListing<T(!new)>(table: set<T>) returns (rows: seq<T>)
    ensures Lists(rows, table) && Distinct(rows)
  {
    if table == {} {
      rows := [];
    } else {
      var x :| x in table;
      rows := ListingFrom(x, table);
    }
  }

  // ── Terms and row order ───────────────────────────────────────────────────

  /** The entry of a course carries the obligation and the terms of placement `cp`. */
  predicate Carries(courses: map<nat, Course>, byCourse: map<nat, Reaching>, cp: Placed)
    requires cp.course in courses
  {
    && cp.course in byCourse
    && byCourse[cp.course].mandatory == cp.mandatory
    && byCourse[cp.course].deadlineDays == DeadlineOf(courses, cp)
    && byCourse[cp.course].retakeEveryNDays == RetakeOf(courses, cp)
  }

  /** Terms once set stay, unless an obligation arrives. */
  lemma {:induction false} ThroughKeeps(t: Tables, cp: Placed, mine: seq<Occupant>, found: map<nat, Reaching>,
                                        lead: Placed)
    requires cp.course in t.courses && lead.course in t.courses && Carries(t.courses, found, lead)
    requires cp.course == lead.course && cp.mandatory && !lead.mandatory ==> forall o :: o in mine ==> !t.Reaches(cp, o)
    ensures Carries(t.courses, SeenThrough(t, cp, mine, found), lead)
  {
    if mine != [] {
      ThroughKeeps(t, cp, mine[..|mine| - 1], found, lead);
    }
  }

  lemma {:induction false} ThroughStarts(t: Tables, lead: Placed, mine: seq<Occupant>, found: map<nat, Reaching>)
    requires lead.course in t.courses && lead.course !in found
    ensures var after := SeenThrough(t, lead, mine, found);
      if exists o :: o in mine && t.Reaches(lead, o) then Carries(t.courses, after, lead) else after == found
  {
    if mine != [] {
      var rest, o := mine[..|mine| - 1], mine[|mine| - 1];
      ThroughStarts(t, lead, rest, found);
      assert forall x :: x in mine <==> x == o || x in rest;
    }
  }

  /** The first row decides: when it reaches the person and no obligation is above it, its terms are the ones shown. */
  lemma {:induction false} FirstDecides(t: Tables, placed: seq<Placed>, mine: seq<Occupant>, n: nat)
    requires 0 < n <= |placed| && forall cp :: cp in placed ==> cp.course in t.courses
    requires exists o :: o in mine && t.Reaches(placed[0], o)
    requires !placed[0].mandatory ==>
      forall cp, o :: cp in placed && o in mine && cp.course == placed[0].course && t.Reaches(cp, o) ==> !cp.mandatory
    ensures Carries(t.courses, SeenAll(t, placed[..n], mine), placed[0])
  {
    var rest, cp := placed[..n][..n - 1], placed[n - 1];
    assert rest == placed[..n - 1] && cp in placed;
    if n == 1 {
      ThroughStarts(t, cp, mine, map[]);
    } else {
      FirstDecides(t, placed, mine, n - 1);
      ThroughKeeps(t, cp, mine, SeenAll(t, placed[..n - 1], mine), placed[0]);
    }
  }

  /** The placements whose terms a course can be shown under: the mandatory ones, when there are any. */
  ghost function Winning(seen: set<Sighting>): set<Sighting> { Carrying(seen, Carrying(seen, true) != {}) }

  ghost predicate SameTerms(courses: map<nat, Course>, seen: set<Sighting>)
    requires forall s :: s in seen ==> s.0.course in courses
  {
    forall a, b :: a in Winning(seen) && b in Winning(seen) ==>
      DeadlineOf(courses, a.0) == DeadlineOf(courses, b.0) && RetakeOf(courses, a.0) == RetakeOf(courses, b.0)
  }

  /** The deadline and the recurrence `coursesReaching` shows for a course, from rows in some order. */
  ghost function Shown(t: Tables, person: nat, course: nat, mine: seq<Occupant>,
                       placed: seq<Placed>): Option<(Option<nat>, Option<nat>)>
    requires Listings(t, person, mine, placed)
  {
    var byCourse := SeenAll(t, placed, mine);
    if course in byCourse then Some((byCourse[course].deadlineDays, byCourse[course].retakeEveryNDays)) else None
  }

  /** No row comes twice: what a query of rows that differ returns. */
  ghost predicate Once(mine: seq<Occupant>, placed: seq<Placed>) { Distinct(mine) && Distinct(placed) }

  /** Every order of the rows shows the same; with `once`, every order in which no row is repeated. */
  ghost predicate OrderIsIrrelevant(t: Tables, person: nat, course: nat, once: bool) {
    forall m, p, n, q | Listings(t, person, m, p) && Listings(t, person, n, q) ::
      (once ==> Once(m, p) && Once(n, q)) ==> Shown(t, person, course, m, p) == Shown(t, person, course, n, q)
  }

  /**
   * What a person is shown does not depend on the order of rows exactly when all winning placements carry
   * the same terms; it makes no difference whether rows may repeat.
   */
  lemma TermsDependOnRowOrder(t: Tables, person: nat, course: nat, once: bool)
    requires t.Valid()
    ensures OrderIsIrrelevant(t, person, course, once) <==> SameTerms(t.courses, Seen(t, person, course))
  {
    if SameTerms(t.courses, Seen(t, person, course)) {
      forall m, p, n, q | Listings(t, person, m, p) && Listings(t, person, n, q)
        ensures Shown(t, person, course, m, p) == Shown(t, person, course, n, q)
      {
        OneWins(t, person, course, m, p);
        OneWins(t, person, course, n, q);
      }
    } else if OrderIsIrrelevant(t, person, course, once) {
      forall a, b | a in Winning(Seen(t, person, course)) && b in Winning(Seen(t, person, course))
        ensures DeadlineOf(t.courses, a.0) == DeadlineOf(t.courses, b.0)
        ensures RetakeOf(t.courses, a.0) == RetakeOf(t.courses, b.0)
      {
        var m, p := ShowsTerms(t, person, course, a);
        var n, q := ShowsTerms(t, person, course, b);
        assert Shown(t, person, course, m, p) == Shown(t, person, course, n, q);
      }
    }
  }

  /** Whatever the order, what is shown are the terms of a winning placement. */
  lemma OneWins(t: Tables, person: nat, course: nat, mine: seq<Occupant>, placed: seq<Placed>)
    requires t.Valid() && Listings(t, person, mine, placed)
    ensures Collected(t.courses, SeenAll(t, placed, mine), t.SightingsOf(person))
    ensures Shown(t, person, course, mine, placed).None? <==> Seen(t, person, course) == {}
    ensures Shown(t, person, course, mine, placed).Some? ==>
      exists s :: s in Winning(Seen(t, person, course)) &&
        Shown(t, person, course, mine, placed) == Some((DeadlineOf(t.courses, s.0), RetakeOf(t.courses, s.0)))
  {
    AllCollected(t, placed, mine, |placed|);
    assert placed[..|placed|] == placed;
    assert ThroughAll(t, placed, mine) == t.SightingsOf(person);
    var byCourse := SeenAll(t, placed, mine);
    if course in byCourse {
      var e, seen := byCourse[course], Seen(t, person, course);
      var s :| s in Carrying(seen, e.mandatory) && s.0.course in t.courses
        && Terms(t.courses, s).(anchor := e.anchor) == e;
      assert s in Winning(seen);
    }
  }

  /** Each winning placement has an order of the rows in which its terms are the ones shown. */
  lemma ShowsTerms(t: Tables, person: nat, course: nat, s: Sighting) returns (mine: seq<Occupant>, placed: seq<Placed>)
    requires t.Valid() && s in Winning(Seen(t, person, course))
    ensures Listings(t, person, mine, placed) && Once(mine, placed)
    ensures Shown(t, person, course, mine, placed) == Some((DeadlineOf(t.courses, s.0), RetakeOf(t.courses, s.0)))
  {
    mine := SomeListing(set o | o in t.occupants && o.person == person);
    placed := ListingFrom(s.0, set cp | cp in t.placed && cp.course in t.courses && !t.courses[cp.course].withdrawn);
    assert s.1 in mine;
    forall cp, o | cp in placed && o in mine && cp.course == course && t.Reaches(cp, o) && cp.mandatory
      ensures s.0.mandatory
    {
      assert (cp, o) in Carrying(Seen(t, person, course), true);
    }
    FirstDecides(t, placed, mine, |placed|);
    assert placed[..|placed|] == placed;
  }

  // ── Who is late ───────────────────────────────────────────────────────────

  /** The report calls a course mandatory for everybody when any placement in view is. */
  predicate ReportOverdue(cp: Placed, start: int, deadlineDays: Option<nat>, record: Option<Record>, now: int) {
    !IsCompliant(record, now) && cp.mandatory && IsPastDeadline(start, deadlineDays, now)
  }

  predicate LearnerOverdue(e: Reaching, start: int, record: Option<Record>, now: int) {
    e.mandatory && !IsCompliant(record, now) && IsPastDeadline(start, e.deadlineDays, now)
  }

  /**
   * What the two views have before them for one person and one course: rows in some order, a record, editions, a
   * moment.
   */
  datatype Scene = Scene(
    mine: seq<Occupant>, placed: seq<Placed>, relevant: seq<Placed>, since: Since,
    record: Option<Record>, resets: seq<int>, later: seq<int>, now: int, own: int, reported: int)
  {
    ghost predicate Shows(t: Tables, branch: nat, person: nat, course: nat)
      requires t.Valid() && branch in t.nodes && course in t.courses
    {
      && Listings(t, person, mine, placed)
      && Lists(relevant, set cp | cp in t.placed && t.Relevant(branch, cp))
      && Dates(since, ForPerson(t.SightingsIn(branch, course), person))
      && (record.Some? && record.value.completedAt.Some? ==>
            forall at :: at in later <==> at in resets && at > record.value.completedAt.value)
      && Lead(relevant, course).Some?
      && course in Entries(t)
      && IsStart(own, Entries(t)[course].anchor, record, later, now)
      && IsStart(reported, Clock(since), record, resets, now)
    }

    /** In no listing does a row come twice. */
    ghost predicate EachOnce() { Once(mine, placed) && Distinct(relevant) }

    function Entries(t: Tables): map<nat, Reaching>
      requires forall cp :: cp in placed ==> cp.course in t.courses
    {
      SeenAll(t, placed, mine)
    }

    /** The two flags are the same. */
    ghost predicate Agrees(t: Tables, branch: nat, person: nat, course: nat)
      requires t.Valid() && branch in t.nodes && course in t.courses && Shows(t, branch, person, course)
    {
      var line := Lead(relevant, course).value;
      LeadIs(relevant, course);
      ReportOverdue(line, reported, DeadlineOf(t.courses, line), record, now) <==>
        LearnerOverdue(Entries(t)[course], own, record, now)
    }
  }

  /** The mandatory placements of a course that the branch report looks at. */
  ghost function Obliging(t: Tables, branch: nat, course: nat): set<Placed>
    requires t.Valid() && branch in t.nodes
  {
    set cp | cp in t.placed && t.Relevant(branch, cp) && cp.course == course && cp.mandatory
  }

  /**
   * However the rows come, whatever the person's record and at every moment, the two views agree whether they are
   * late; with `once`, however the rows come without repetition.
   */
  ghost predicate AlwaysAgree(t: Tables, branch: nat, person: nat, course: nat, once: bool)
    requires t.Valid() && branch in t.nodes && course in t.courses
  {
    forall v: Scene | v.Shows(t, branch, person, course) ::
      (once ==> v.EachOnce()) ==> v.Agrees(t, branch, person, course)
  }

  /** No mandatory placement in view has a deadline; or one reaches the person and all in view have the same. */
  ghost predicate OneDeadline(t: Tables, branch: nat, person: nat, course: nat)
    requires t.Valid() && branch in t.nodes
  {
    || (forall cp :: cp in Obliging(t, branch, course) ==> DeadlineOf(t.courses, cp).None?)
    || (Carrying(Seen(t, person, course), true) != {} && SameDeadline(t, branch, course))
  }

  ghost predicate SameDeadline(t: Tables, branch: nat, course: nat)
    requires t.Valid() && branch in t.nodes
  {
    forall a, b :: a in Obliging(t, branch, course) && b in Obliging(t, branch, course) ==>
      DeadlineOf(t.courses, a) == DeadlineOf(t.courses, b)
  }

  /** What a scene comes down to: one start of the clock, a leading placement and a winning one. */
  lemma SceneFacts(t: Tables, branch: nat, person: nat, course: nat, v: Scene)
    requires t.Valid() && branch in t.nodes && course in t.courses && !t.courses[course].withdrawn
    requires BelongsTo(t, person, branch)
    requires v.Shows(t, branch, person, course)
    ensures v.own == v.reported
    ensures var e := v.Entries(t)[course];
      && (e.mandatory <==> Carrying(Seen(t, person, course), true) != {})
      && (e.mandatory ==> WithDeadline(t, branch, course, e.deadlineDays))
    ensures var line := Lead(v.relevant, course).value;
      line.mandatory <==> line in Obliging(t, branch, course)
    ensures Obliging(t, branch, course) != {} ==> Lead(v.relevant, course).value.mandatory
  {
    var seen, e := Seen(t, person, course), v.Entries(t)[course];
    OneWins(t, person, course, v.mine, v.placed);
    SameSightings(t, branch, person, course);
    SameClock(t.courses, e, v.since, seen);
    LaterEditionsSuffice(v.reported, v.own, Clock(v.since), v.record, v.resets, v.later, v.now);
    LeadIs(v.relevant, course);
    if e.mandatory {
      var s :| s in Carrying(seen, true) && s.0.course in t.courses && Terms(t.courses, s).(anchor := e.anchor) == e;
      t.ReachIsRelevant(branch, s.0, s.1);
      assert s.0 in Obliging(t, branch, course);
    }
    if m :| m in Obliging(t, branch, course) {
      assert m in v.relevant;
    }
  }

  ghost predicate WithDeadline(t: Tables, branch: nat, course: nat, days: Option<nat>)
    requires t.Valid() && branch in t.nodes
  {
    exists cp :: cp in Obliging(t, branch, course) && DeadlineOf(t.courses, cp) == days
  }

  /**
   * The two views always agree who is late exactly when no mandatory placement in view of the branch has a
   * deadline, or one reaches the person and all in view have the same; a person the course does not reach is
   * in neither view. It makes no difference whether rows may repeat.
   */
  lemma OverdueAgreesExactly(t: Tables, branch: nat, person: nat, course: nat, once: bool)
    requires t.Valid() && branch in t.nodes && course in t.courses && !t.courses[course].withdrawn
    requires BelongsTo(t, person, branch)
    ensures AlwaysAgree(t, branch, person, course, once) <==>
      Seen(t, person, course) == {} || OneDeadline(t, branch, person, course)
  {
    if Seen(t, person, course) == {} || OneDeadline(t, branch, person, course) {
      forall v: Scene | v.Shows(t, branch, person, course)
        ensures v.Agrees(t, branch, person, course)
      {
        SameSightings(t, branch, person, course);
        OneDeadlineAgrees(t, branch, person, course, v);
      }
    } else {
      var v := Disagreement(t, branch, person, course);
    }
  }

  lemma OneDeadlineAgrees(t: Tables, branch: nat, person: nat, course: nat, v: Scene)
    requires t.Valid() && branch in t.nodes && course in t.courses && !t.courses[course].withdrawn
    requires BelongsTo(t, person, branch)
    requires v.Shows(t, branch, person, course) && OneDeadline(t, branch, person, course)
    ensures v.Agrees(t, branch, person, course)
  {
    SceneFacts(t, branch, person, course, v);
    LeadIs(v.relevant, course);
  }

  /** Otherwise some order of the rows and some moment set them apart. */
  lemma Disagreement(t: Tables, branch: nat, person: nat, course: nat) returns (v: Scene)
    requires t.Valid() && branch in t.nodes && course in t.courses && !t.courses[course].withdrawn
    requires BelongsTo(t, person, branch)
    requires Seen(t, person, course) != {} && !OneDeadline(t, branch, person, course)
    ensures v.Shows(t, branch, person, course) && v.EachOnce() && !v.Agrees(t, branch, person, course)
  {
    var seen := Seen(t, person, course);
    var s := SomeWinner(seen);
    if Carrying(seen, true) == {} {
      v := OnlyTheReport(t, branch, person, course, s);
    } else {
      v := OnlyOneView(t, branch, person, course, s);
    }
  }

  /** Nothing obliges the person, but something in view has a deadline: long after it, the report calls them late. */
  lemma OnlyTheReport(t: Tables, branch: nat, person: nat, course: nat, s: Sighting) returns (v: Scene)
    requires t.Valid() && branch in t.nodes && course in t.courses && !t.courses[course].withdrawn
    requires BelongsTo(t, person, branch)
    requires s in Winning(Seen(t, person, course)) && Carrying(Seen(t, person, course), true) == {}
    requires !(forall cp :: cp in Obliging(t, branch, course) ==> DeadlineOf(t.courses, cp).None?)
    ensures v.Shows(t, branch, person, course) && v.EachOnce() && !v.Agrees(t, branch, person, course)
  {
    var lead :| lead in Obliging(t, branch, course) && DeadlineOf(t.courses, lead).Some?;
    v := SceneOf(t, branch, person, course, lead, s, DeadlineOf(t.courses, lead).value * DAY_MS + 1);
    SceneFacts(t, branch, person, course, v);
  }

  /**
   * Two deadlines in view: one placement leads the report, another wins in the list, and the shorter term has passed.
   */
  lemma OnlyOneView(t: Tables, branch: nat, person: nat, course: nat, s: Sighting) returns (v: Scene)
    requires t.Valid() && branch in t.nodes && course in t.courses && !t.courses[course].withdrawn
    requires BelongsTo(t, person, branch)
    requires s in Winning(Seen(t, person, course)) && Carrying(Seen(t, person, course), true) != {}
    requires !SameDeadline(t, branch, course)
    ensures v.Shows(t, branch, person, course) && v.EachOnce() && !v.Agrees(t, branch, person, course)
  {
    var lead := AnotherDeadline(t, branch, course, DeadlineOf(t.courses, s.0));
    var a, b := DeadlineOf(t.courses, lead), DeadlineOf(t.courses, s.0);
    v := SceneOf(t, branch, person, course, lead, s, Between(a, b) * DAY_MS + 1);
    SceneFacts(t, branch, person, course, v);
    OnlyOneIsPast(v.reported, a, b);
  }

  /** The shorter of two deadlines. */
  function Between(a: Option<nat>, b: Option<nat>): nat
    requires a != b
  {
    if a.None? then b.value else if b.None? then a.value else Min(a.value, b.value)
  }

  lemma OnlyOneIsPast(start: int, a: Option<nat>, b: Option<nat>)
    requires a != b
    ensures IsPastDeadline(start, a, start + (Between(a, b) * DAY_MS + 1)) !=
      IsPastDeadline(start, b, start + (Between(a, b) * DAY_MS + 1))
  {
  }

  lemma SomeWinner(seen: set<Sighting>) returns (s: Sighting)
    requires seen != {}
    ensures s in Winning(seen)
  {
    if Carrying(seen, true) == {} {
      NoneMandatory(seen);
      s :| s in seen;
    } else {
      s :| s in Carrying(seen, true);
    }
  }

  lemma AnotherDeadline(t: Tables, branch: nat, course: nat, days: Option<nat>) returns (cp: Placed)
    requires t.Valid() && branch in t.nodes && !SameDeadline(t, branch, course)
    ensures cp in Obliging(t, branch, course) && DeadlineOf(t.courses, cp) != days
  {
    cp :| cp in Obliging(t, branch, course) && DeadlineOf(t.courses, cp) != days;
  }

  /**
   * A scene in which one placement leads the report, another wins in the person's list, and so much time has passed.
   */
  lemma SceneOf(t: Tables, branch: nat, person: nat, course: nat, lead: Placed, s: Sighting, passed: int)
    returns (v: Scene)
    requires t.Valid() && branch in t.nodes && course in t.courses && !t.courses[course].withdrawn
    requires BelongsTo(t, person, branch)
    requires lead in Obliging(t, branch, course) && s in Winning(Seen(t, person, course))
    ensures v.Shows(t, branch, person, course) && v.EachOnce() && v.record.None? && v.now == v.reported + passed
    ensures Lead(v.relevant, course) == Some(lead)
    ensures v.Entries(t)[course].deadlineDays == DeadlineOf(t.courses, s.0)
  {
    var mine, placed := ShowsTerms(t, person, course, s);
    var relevant := ListingFrom(lead, set cp | cp in t.placed && t.Relevant(branch, cp));
    FirstLeads(relevant, course, |relevant|);
    assert relevant[..|relevant|] == relevant;
    SameSightings(t, branch, person, course);
    var since := SomeDates(Seen(t, person, course));
    var anchor := SeenAll(t, placed, mine)[course].anchor;
    v := Scene(mine, placed, relevant, since, None, [], [], Clock(since) + passed, anchor, Clock(since));
  }

  lemma {:induction false} FirstLeads(rows: seq<Placed>, course: nat, n: nat)
    requires 0 < n <= |rows| && rows[0].course == course && rows[0].mandatory
    ensures Lead(rows[..n], course) == Some(rows[0])
  {
    assert rows[..n][..n - 1] == rows[..n - 1];
    if n > 1 {
      FirstLeads(rows, course, n - 1);
    }
  }

  /** Sightings have dates. */
  lemma SomeDates(seen: set<Sighting>) returns (since: Since)
    requires seen != {}
    ensures Dates(since, seen)
  {
    var at := SomeEarliest(seen);
    if Carrying(seen, true) == {} {
      since := Since(at, None);
    } else {
      var due := SomeEarliest(Carrying(seen, true));
      since := Since(at, Some(due));
    }
  }

  lemma {:induction false} SomeEarliest(seen: set<Sighting>) returns (at: int)
    requires seen != {}
    ensures Earliest(at, seen)
    decreases |seen|
  {
    var s :| s in seen;
    EarliestOfOne(s);
    assert seen == (seen - {s}) + {s};
    if seen == {s} {
      at := ReachedAt(s);
    } else {
      var rest := SomeEarliest(seen - {s});
      EarliestOfBoth(rest, seen - {s}, ReachedAt(s), {s});
      at := if ReachedAt(s) < rest then ReachedAt(s) else rest;
    }
  }

  // ── What the flags mean ───────────────────────────────────────────────────

  /**
   * Somebody these sightings reach is late under a deadline: they have no completion that counts, and the whole term
   * has passed both since the first sighting and since every time the course reopened for them.
   */
  ghost predicate IsLate(seen: set<Sighting>, days: Option<nat>, record: Option<Record>, resets: seq<int>, now: int) {
    && !IsCompliant(record, now) && days.Some?
    && (exists s :: s in seen && now - ReachedAt(s) > days.value * DAY_MS)
    && (forall at :: Reopened(record, resets, now, at) ==> now - at > days.value * DAY_MS)
  }

  lemma LateExactly(seen: set<Sighting>, start: int, anchor: int, days: Option<nat>, record: Option<Record>,
                    resets: seq<int>, now: int)
    requires Earliest(anchor, seen) && IsStart(start, anchor, record, resets, now)
    ensures !IsCompliant(record, now) && IsPastDeadline(start, days, now) <==> IsLate(seen, days, record, resets, now)
  {
    if days.Some? {
      LateMeansAFullTerm(start, anchor, record, resets, days.value, now);
    }
  }

  /** The sightings that start the report's clock: the mandatory ones, when there are any. */
  ghost function Clocking(seen: set<Sighting>): set<Sighting> {
    if Carrying(seen, true) != {} then Carrying(seen, true) else seen
  }

  /** The list's flag: an obligation reaches the person, and they are late under the terms shown. */
  ghost predicate LateInList(t: Tables, person: nat, course: nat, e: Reaching, record: Option<Record>,
                             resets: seq<int>, now: int)
    requires t.Valid()
  {
    var obliging := Carrying(Seen(t, person, course), true);
    obliging != {} && IsLate(obliging, e.deadlineDays, record, resets, now)
  }

  /** The report's: the line is mandatory, for whomever, and they are late under its terms. */
  ghost predicate LateInReport(t: Tables, person: nat, course: nat, line: Placed, record: Option<Record>,
                               resets: seq<int>, now: int)
    requires t.Valid() && line.course in t.courses
  {
    line.mandatory && IsLate(Clocking(Seen(t, person, course)), DeadlineOf(t.courses, line), record, resets, now)
  }

  /** That is what the two views compute. */
  lemma FlagsExactly(t: Tables, branch: nat, person: nat, course: nat, v: Scene)
    requires t.Valid() && branch in t.nodes && course in t.courses && !t.courses[course].withdrawn
    requires BelongsTo(t, person, branch) && v.Shows(t, branch, person, course)
    ensures LearnerOverdue(v.Entries(t)[course], v.own, v.record, v.now) <==>
      LateInList(t, person, course, v.Entries(t)[course], v.record, v.resets, v.now)
    ensures Lead(v.relevant, course).value.course == course
    ensures var line := Lead(v.relevant, course).value;
      ReportOverdue(line, v.reported, DeadlineOf(t.courses, line), v.record, v.now) <==>
        LateInReport(t, person, course, line, v.record, v.resets, v.now)
  {
    var seen, e := Seen(t, person, course), v.Entries(t)[course];
    SceneFacts(t, branch, person, course, v);
    OneWins(t, person, course, v.mine, v.placed);
    SameSightings(t, branch, person, course);
    LeadIs(v.relevant, course);
    ClockOfSeen(v.since, seen);
    LateExactly(Clocking(seen), v.reported, Clock(v.since), DeadlineOf(t.courses, Lead(v.relevant, course).value),
        v.record, v.resets, v.now);
    LateExactly(Clocking(seen), v.reported, Clock(v.since), e.deadlineDays, v.record, v.resets, v.now);
  }

  lemma ClockOfSeen(since: Since, seen: set<Sighting>)
    requires Dates(since, seen)
    ensures Earliest(Clock(since), Clocking(seen))
  {
  }

  /**
   * Both views run and both flags computed: each is what it should be, and on tables with one deadline they are
   * the same.
   */
  method BothFlags(t: Tables, branch: nat, person: nat, course: nat, mine: seq<Occupant>, deployed: seq<Placed>,
                   occupants: seq<Occupant>, relevant: seq<Placed>, record: Option<Record>, resets: seq<int>,
                   later: seq<int>, now: int)
    returns (inReport: bool, inList: bool)
    requires t.Valid() && branch in t.nodes && course in t.courses && !t.courses[course].withdrawn
    requires BelongsTo(t, person, branch)
    requires Listings(t, person, mine, deployed)
    requires Lists(occupants, set o | o in t.occupants && o.role in t.nodes && t.InBranch(branch, o.role))
    requires Lists(relevant, set cp | cp in t.placed && t.Relevant(branch, cp))
    requires record.Some? && record.value.completedAt.Some? ==>
      forall at :: at in later <==> at in resets && at > record.value.completedAt.value
    ensures Seen(t, person, course) == {} ==> !inReport && !inList
    ensures OneDeadline(t, branch, person, course) ==> inReport == inList
    ensures Seen(t, person, course) != {} ==>
      FlagsSay(t, person, course, mine, deployed, relevant, record, resets, now, inReport, inList)
  {
    var byCourse, report := BothViews(t, branch, person, mine, deployed, occupants, relevant);
    OneWins(t, person, course, mine, deployed);
    LeadIs(relevant, course);
    if course !in byCourse || course !in report || person !in report[course].audience.people {
      return false, false;
    }
    var e, line, since := byCourse[course], report[course], report[course].audience.people[person];
    var own := DeadlineStartsAt(e.anchor, record, later, now);
    var reported := DeadlineStartsAt(Clock(since), record, resets, now);
    inReport := ReportOverdue(line.cp, reported, DeadlineOf(t.courses, line.cp), record, now);
    inList := LearnerOverdue(e, own, record, now);
    ghost var v := Scene(mine, deployed, relevant, since, record, resets, later, now, own, reported);
    RunShows(t, branch, person, course, occupants, v, line.cp, line.audience.people);
    SceneFlags(t, branch, person, course, v, line.cp, inReport, inList);
  }

  /** Both flags as they should be, for rows in the order they came. */
  ghost predicate FlagsSay(t: Tables, person: nat, course: nat, mine: seq<Occupant>, placed: seq<Placed>,
                           relevant: seq<Placed>, record: Option<Record>, resets: seq<int>, now: int, inReport: bool,
                           inList: bool)
    requires t.Valid() && forall cp :: cp in placed ==> cp.course in t.courses
  {
    var byCourse, lead := SeenAll(t, placed, mine), Lead(relevant, course);
    && course in byCourse && lead.Some? && lead.value.course in t.courses
    && (inList <==> LateInList(t, person, course, byCourse[course], record, resets, now))
    && (inReport <==> LateInReport(t, person, course, lead.value, record, resets, now))
  }

  lemma SceneFlags(t: Tables, branch: nat, person: nat, course: nat, v: Scene, line: Placed,
                   inReport: bool, inList: bool)
    requires t.Valid() && branch in t.nodes && course in t.courses && !t.courses[course].withdrawn
    requires BelongsTo(t, person, branch) && v.Shows(t, branch, person, course)
    requires inList == LearnerOverdue(v.Entries(t)[course], v.own, v.record, v.now)
    requires Lead(v.relevant, course) == Some(line) && line.course in t.courses
    requires inReport == ReportOverdue(line, v.reported, DeadlineOf(t.courses, line), v.record, v.now)
    ensures FlagsSay(t, person, course, v.mine, v.placed, v.relevant, v.record, v.resets, v.now, inReport, inList)
    ensures OneDeadline(t, branch, person, course) ==> inReport == inList
  {
    FlagsExactly(t, branch, person, course, v);
    if OneDeadline(t, branch, person, course) {
      OneDeadlineAgrees(t, branch, person, course, v);
    }
  }

  /** What the two loops leave is a scene. */
  lemma RunShows(t: Tables, branch: nat, person: nat, course: nat, occupants: seq<Occupant>, v: Scene, line: Placed,
                 people: map<nat, Since>)
    requires t.Valid() && branch in t.nodes && course in t.courses
    requires Listings(t, person, v.mine, v.placed) && course in v.Entries(t)
    requires Lists(occupants, set o | o in t.occupants && o.role in t.nodes && t.InBranch(branch, o.role))
    requires Lists(v.relevant, set cp | cp in t.placed && t.Relevant(branch, cp))
    requires v.record.Some? && v.record.value.completedAt.Some? ==>
      forall at :: at in v.later <==> at in v.resets && at > v.record.value.completedAt.value
    requires LineOk(t, course, line, people, v.relevant, occupants) && person in people && v.since == people[person]
    requires IsStart(v.own, v.Entries(t)[course].anchor, v.record, v.later, v.now)
    requires IsStart(v.reported, Clock(v.since), v.record, v.resets, v.now)
    ensures v.Shows(t, branch, person, course) && Lead(v.relevant, course) == Some(line)
  {
    RelevantIsEnough(t, branch, occupants, v.relevant, course);
  }

  // ── Tables on which the promises fail ─────────────────────────────────────

  /** A root and a role below it, course 7 placed some ways, and person 5 on some of the roles since the beginning. */
  function TwoRoles(placed: set<Placed>, occupants: set<Occupant>): Tables {
    Tables(
      map[0 := Node(None, 100, Render(100), true), 1 := Node(Some(0), 101, Render(100) + "." + Render(101), true)],
      map[7 := Course(false, None, None)], placed, occupants)
  }

  /** Course 7 on a role and no role below it, from the beginning. */
  function On(role: nat, mandatory: bool, days: nat): Placed { Placed(7, role, mandatory, false, 0, Some(days), None) }

  lemma TwoRolesFacts(placed: set<Placed>, occupants: set<Occupant>)
    requires forall cp :: cp in placed ==> cp.course == 7 && cp.role <= 1
    requires forall o :: o in occupants ==> o.role <= 1
    ensures var t := TwoRoles(placed, occupants);
      && t.Valid() && t.InBranch(0, 0) && t.InBranch(0, 1)
      && t.nodes[0].path != t.nodes[1].path
  {
    var t := TwoRoles(placed, occupants);
    assert PathOk(t.nodes, 0) && PathOk(t.nodes, 1);
  }

  /** A person on both roles, mandatory placements on both: the order of the rows picks 10 days or 30. */
  lemma TwoTermsShown()
    ensures var a, b, o, p := On(0, true, 10), On(1, true, 30), Occupant(5, 0, 0), Occupant(5, 1, 0);
      var t := TwoRoles({a, b}, {o, p});
      && t.Valid() && Listings(t, 5, [o, p], [a, b]) && Listings(t, 5, [o, p], [b, a])
      && Shown(t, 5, 7, [o, p], [a, b]) == Some((Some(10), None))
      && Shown(t, 5, 7, [o, p], [b, a]) == Some((Some(30), None))
  {
    var a, b, o, p := On(0, true, 10), On(1, true, 30), Occupant(5, 0, 0), Occupant(5, 1, 0);
    var t := TwoRoles({a, b}, {o, p});
    TwoRolesFacts({a, b}, {o, p});
    assert o in [o, p] && p in [o, p];
    FirstDecides(t, [a, b], [o, p], 2);
    FirstDecides(t, [b, a], [o, p], 2);
    assert [a, b][..2] == [a, b] && [b, a][..2] == [b, a];
  }

  /** Person 5 on the lower role alone, 20 days after the root's mandatory placement set 10 days for its own people. */
  function TwentyDays(lower: Placed): Scene {
    var since, rows := Since(0, if lower.mandatory then Some(0) else None), [On(0, true, 10), lower];
    Scene([Occupant(5, 1, 0)], rows, rows, since, None, [], [], 20 * DAY_MS, 0, 0)
  }

  lemma TwentyDaysShow(mandatory: bool)
    ensures var lower, o := On(1, mandatory, 30), Occupant(5, 1, 0);
      var t := TwoRoles({On(0, true, 10), lower}, {o});
      var v := TwentyDays(lower);
      && t.Valid() && BelongsTo(t, 5, 0) && v.Shows(t, 0, 5, 7)
      && Lead(v.relevant, 7) == Some(On(0, true, 10)) && Carries(t.courses, v.Entries(t), lower)
  {
    var a, b, o := On(0, true, 10), On(1, mandatory, 30), Occupant(5, 1, 0);
    var t := TwoRoles({a, b}, {o});
    TwoRolesFacts({a, b}, {o});
    OnlyLowerReaches(t, a, b, o);
    FirstLeads([a, b], 7, 2);
    assert [a, b][..2] == [a, b];
    DatesOfOne((b, o));
    OneSighting(t, a, b, o);
  }

  lemma OneSighting(t: Tables, a: Placed, b: Placed, o: Occupant)
    requires t == TwoRoles({a, b}, {o}) && t.Valid() && t.InBranch(0, o.role) && !t.Reaches(a, o) && t.Reaches(b, o)
    requires b.course == 7
    ensures ForPerson(t.SightingsIn(0, 7), o.person) == {(b, o)}
  {
  }

  lemma OnlyLowerReaches(t: Tables, a: Placed, b: Placed, o: Occupant)
    requires a.course in t.courses && b.course in t.courses && !t.Reaches(a, o) && t.Reaches(b, o)
    ensures SeenAll(t, [a, b], [o]) == map[b.course := Terms(t.courses, (b, o))]
  {
    assert [a, b][..1] == [a] && [a][..0] == [] && [o][..0] == [];
    assert SeenThrough(t, a, [o], map[]) == map[];
    assert SeenAll(t, [a], [o]) == map[];
    assert SeenThrough(t, b, [o], map[]) == Sight(t.courses, map[], (b, o));
  }

  /** Two mandatory placements with different deadlines: the report calls the person late, their own list does not. */
  lemma TwoDeadlinesDisagree()
    ensures var t, v := TwoRoles({On(0, true, 10), On(1, true, 30)}, {Occupant(5, 1, 0)}), TwentyDays(On(1, true, 30));
      && t.Valid() && BelongsTo(t, 5, 0) && v.Shows(t, 0, 5, 7)
      && ReportOverdue(On(0, true, 10), v.reported, Some(10), None, v.now)
      && !LearnerOverdue(v.Entries(t)[7], v.own, None, v.now) && !v.Agrees(t, 0, 5, 7)
  {
    TwentyDaysShow(true);
  }

  /** Only an optional placement reaches the person: the report calls them late for another role's obligation. */
  lemma OptionalReachDisagrees()
    ensures var t := TwoRoles({On(0, true, 10), On(1, false, 30)}, {Occupant(5, 1, 0)});
      var v := TwentyDays(On(1, false, 30));
      && t.Valid() && BelongsTo(t, 5, 0) && v.Shows(t, 0, 5, 7)
      && ReportOverdue(On(0, true, 10), v.reported, Some(10), None, v.now)
      && !v.Entries(t)[7].mandatory && !v.Agrees(t, 0, 5, 7)
  {
    TwentyDaysShow(false);
  }
}
