/** Who a course reaches and since when, computed for one person and for a whole branch. */
module Reach {
  import opened Bytes
  import opened Policy
  import opened RoleTree

  datatype Course = Course(withdrawn: bool, deadlineDays: Option<nat>, retakeEveryNDays: Option<nat>)

  /** A course placed on a role. */
  datatype Placed = Placed(
    course: nat, role: nat, mandatory: bool, inherit: bool, createdAt: int,
    deadlineDays: Option<nat>, retakeEveryNDays: Option<nat>)

  /** A person placed on a role. */
  datatype Occupant = Occupant(person: nat, role: nat, createdAt: int)

  /** A placement of a course and a placement of a person that the course reaches through it. */
  type Sighting = (Placed, Occupant)

  datatype Tables = Tables(
    nodes: map<nat, Node>, courses: map<nat, Course>, placed: set<Placed>, occupants: set<Occupant>)
  {
    /** Foreign keys hold and the roles form a tree. */
    ghost predicate Valid() {
      && IsTree(nodes)
      && (forall cp :: cp in placed ==> cp.course in courses && cp.role in nodes)
      && (forall o :: o in occupants ==> o.role in nodes)
    }

    /** Placed on the person's own role, or inherited from a role above it. */
    predicate Reaches(cp: Placed, o: Occupant) {
      && cp.role in nodes
      && o.role in nodes
      && (nodes[cp.role].path == nodes[o.role].path
          || (cp.inherit && IsSelfOrAncestor(nodes[cp.role].path, nodes[o.role].path)))
    }

    /** Every way a course still in deployment reaches the person. */
    ghost function SightingsOf(person: nat): set<Sighting>
      requires Valid()
    {
      set cp, o | cp in placed && o in occupants && o.person == person && !courses[cp.course].withdrawn
      && Reaches(cp, o) :: (cp, o)
    }

    predicate InBranch(branch: nat, role: nat)
      requires branch in nodes && role in nodes
    {
      IsSelfOrAncestor(nodes[branch].path, nodes[role].path)
    }

    /** The course placements the branch report looks at: in the branch, or inherited from above it. */
    predicate Relevant(branch: nat, cp: Placed)
      requires Valid() && branch in nodes && cp in placed
    {
      || InBranch(branch, cp.role)
      || (cp.inherit && IsSelfOrAncestor(nodes[cp.role].path, nodes[branch].path))
    }

    /** Every way a course reaches somebody placed in the branch. */
    ghost function SightingsIn(branch: nat, course: nat): set<Sighting>
      requires Valid() && branch in nodes
    {
      set cp, o | cp in placed && o in occupants && cp.course == course && InBranch(branch, o.role)
      && Reaches(cp, o) :: (cp, o)
    }

    // ── The same, following parent links ──

    /** Placed on the person's own role, or inherited from one above it. */
    ghost predicate ReachesByLinks(cp: Placed, o: Occupant)
      requires Valid() && o.role in nodes
    {
      cp.role == o.role || (cp.inherit && OnChain(nodes, cp.role, o.role))
    }

    /** The string tests decide what the links say. */
    lemma ReachesExactly(cp: Placed, o: Occupant)
      requires Valid() && cp.role in nodes && o.role in nodes
      ensures Reaches(cp, o) <==> ReachesByLinks(cp, o)
    {
      PathsAreAncestry(nodes, cp.role, o.role);
      if nodes[cp.role].path == nodes[o.role].path {
        SamePath(nodes, cp.role, o.role);
      }
    }

    lemma RelevantExactly(branch: nat, cp: Placed)
      requires Valid() && branch in nodes && cp in placed
      ensures Relevant(branch, cp) <==>
        OnChain(nodes, branch, cp.role) || (cp.inherit && OnChain(nodes, cp.role, branch))
    {
      PathsAreAncestry(nodes, branch, cp.role);
      PathsAreAncestry(nodes, cp.role, branch);
    }

    /** Every way a course in deployment reaches the person, following parent links. */
    ghost function LinkedTo(person: nat): set<Sighting>
      requires Valid()
    {
      set cp, o | cp in placed && o in occupants && o.person == person && !courses[cp.course].withdrawn
      && ReachesByLinks(cp, o) :: (cp, o)
    }

    /** Every way a course reaches somebody at or below a role, following parent links. */
    ghost function LinkedBelow(branch: nat, course: nat): set<Sighting>
      requires Valid() && branch in nodes
    {
      set cp, o | cp in placed && o in occupants && cp.course == course && OnChain(nodes, branch, o.role)
      && ReachesByLinks(cp, o) :: (cp, o)
    }

    lemma SightingsFollowLinks(person: nat)
      requires Valid()
      ensures SightingsOf(person) == LinkedTo(person)
    {
      forall cp, o | cp in placed && o in occupants
        ensures Reaches(cp, o) <==> ReachesByLinks(cp, o)
      {
        ReachesExactly(cp, o);
      }
    }

    lemma BranchFollowsLinks(branch: nat, course: nat)
      requires Valid() && branch in nodes
      ensures SightingsIn(branch, course) == LinkedBelow(branch, course)
    {
      forall cp, o | cp in placed && o in occupants
        ensures Reaches(cp, o) <==> ReachesByLinks(cp, o)
        ensures InBranch(branch, o.role) <==> OnChain(nodes, branch, o.role)
      {
        ReachesExactly(cp, o);
        PathsAreAncestry(nodes, branch, o.role);
      }
    }

    /** The report's filter loses nobody: whatever reaches into the branch is relevant to it. */
    lemma ReachIsRelevant(branch: nat, cp: Placed, o: Occupant)
      requires Valid() && branch in nodes && cp in placed && o in occupants
      requires InBranch(branch, o.role) && Reaches(cp, o)
      ensures Relevant(branch, cp)
    {
      var at, top := nodes[cp.role].path, nodes[branch].path;
      if |at| <= |top| {
        AncestorsAreNested(at, top, nodes[o.role].path);
        if !cp.inherit {
          AncestorsAreNested(top, at, nodes[o.role].path);
        }
      } else {
        AncestorsAreNested(top, at, nodes[o.role].path);
      }
    }
  }

  function LaterOf(a: int, b: int): (later: int)
    ensures later >= a && later >= b && (later == a || later == b)
  {
    if a > b then a else b
  }

  /** It reaches them once both are in place. */
  function ReachedAt(s: Sighting): (at: int)
    ensures s.0.createdAt <= at && s.1.createdAt <= at && (at == s.0.createdAt || at == s.1.createdAt)
  {
    LaterOf(s.0.createdAt, s.1.createdAt)
  }

  /** A query's rows in whatever order the database returns them. */
  ghost predicate Lists<T(!new)>(rows: seq<T>, table: set<T>) { forall x :: x in rows <==> x in table }

  /** `at` is the earliest instant any of the sightings happened. */
  ghost predicate Earliest(at: int, seen: set<Sighting>) {
    && (exists s :: s in seen && ReachedAt(s) == at)
    && (forall s :: s in seen ==> at <= ReachedAt(s))
  }

  lemma EarliestIsUnique(a: int, b: int, seen: set<Sighting>)
    requires Earliest(a, seen) && Earliest(b, seen)
    ensures a == b
  {
    var s :| s in seen && ReachedAt(s) == a;
    var t :| t in seen && ReachedAt(t) == b;
  }

  lemma EarliestOfOne(s: Sighting)
    ensures Earliest(ReachedAt(s), {s})
  {
    assert s in {s};
  }

  lemma EarliestOfBoth(a: int, seen: set<Sighting>, b: int, more: set<Sighting>)
    requires Earliest(a, seen) && Earliest(b, more)
    ensures Earliest(if b < a then b else a, seen + more)
  {
    var s :| s in seen && ReachedAt(s) == a;
    var t :| t in more && ReachedAt(t) == b;
    assert s in seen + more && t in seen + more;
  }

  function ForCourse(seen: set<Sighting>, course: nat): set<Sighting> { set s | s in seen && s.0.course == course }

  function ForPerson(seen: set<Sighting>, person: nat): set<Sighting> { set s | s in seen && s.1.person == person }

  /** The sightings that carry an obligation, or those that do not. */
  function Carrying(seen: set<Sighting>, mandatory: bool): set<Sighting> {
    set s | s in seen && s.0.mandatory == mandatory
  }

  // ── One person's courses ──────────────────────────────────────────────────

  /** A course reaching a person, under the terms of the winning placement. */
  datatype Reaching = Reaching(mandatory: bool, via: nat, anchor: int, deadlineDays: Option<nat>,
      retakeEveryNDays: Option<nat>)

  /** A placement's own setting goes before the course's. */
  function OrDefault(own: Option<nat>, default: Option<nat>): (r: Option<nat>)
    ensures own.Some? ==> r == own
    ensures own.None? ==> r == default
  {
    if own.Some? then own else default
  }

  /** The deadline a placement brings: its own, or the course's. */
  function DeadlineOf(courses: map<nat, Course>, cp: Placed): Option<nat>
    requires cp.course in courses
  {
    OrDefault(cp.deadlineDays, courses[cp.course].deadlineDays)
  }

  /** The recurrence it brings. */
  function RetakeOf(courses: map<nat, Course>, cp: Placed): Option<nat>
    requires cp.course in courses
  {
    OrDefault(cp.retakeEveryNDays, courses[cp.course].retakeEveryNDays)
  }

  function Terms(courses: map<nat, Course>, s: Sighting): Reaching
    requires s.0.course in courses
  {
    Reaching(s.0.mandatory, s.0.role, ReachedAt(s), DeadlineOf(courses, s.0), RetakeOf(courses, s.0))
  }

  /** Mandatory wins; the clock is the earliest of the winning kind; the terms are one winning placement's. */
  ghost predicate Wins(courses: map<nat, Course>, e: Reaching, seen: set<Sighting>) {
    && (e.mandatory <==> Carrying(seen, true) != {})
    && Earliest(e.anchor, Carrying(seen, e.mandatory))
    && exists s ::
      s in Carrying(seen, e.mandatory) && s.0.course in courses && Terms(courses, s).(anchor := e.anchor) == e
  }

  ghost predicate Collected(courses: map<nat, Course>, byCourse: map<nat, Reaching>, seen: set<Sighting>) {
    forall c: nat ::
      && (c in byCourse <==> ForCourse(seen, c) != {})
      && (c in byCourse ==> Wins(courses, byCourse[c], ForCourse(seen, c)))
  }

  /** What one more sighting does to a course's entry. */
  function Sight(courses: map<nat, Course>, byCourse: map<nat, Reaching>, s: Sighting): map<nat, Reaching>
    requires s.0.course in courses
  {
    var c := s.0.course;
    if c !in byCourse then byCourse[c := Terms(courses, s)]
    else if s.0.mandatory && !byCourse[c].mandatory then byCourse[c := Terms(courses, s)]
    else if s.0.mandatory == byCourse[c].mandatory && ReachedAt(s) < byCourse[c].anchor then
      byCourse[c := byCourse[c].(anchor := ReachedAt(s))]
    else byCourse
  }

  lemma SightKeeps(courses: map<nat, Course>, byCourse: map<nat, Reaching>, seen: set<Sighting>, s: Sighting)
    requires s.0.course in courses && Collected(courses, byCourse, seen)
    ensures Collected(courses, Sight(courses, byCourse, s), seen + {s})
  {
    var after := Sight(courses, byCourse, s);
    forall c: nat
      ensures c in after <==> ForCourse(seen + {s}, c) != {}
      ensures c in after ==> Wins(courses, after[c], ForCourse(seen + {s}, c))
    {
      if c == s.0.course {
        assert ForCourse(seen + {s}, c) == ForCourse(seen, c) + {s};
        assert s in ForCourse(seen + {s}, c);
        if c in byCourse {
          WinsKeeps(courses, byCourse[c], ForCourse(seen, c), s);
        } else {
          WinsFirst(courses, s);
          assert ForCourse(seen, c) + {s} == {s};
        }
      } else {
        assert ForCourse(seen + {s}, c) == ForCourse(seen, c);
      }
    }
  }

  lemma WinsFirst(courses: map<nat, Course>, s: Sighting)
    requires s.0.course in courses
    ensures Wins(courses, Terms(courses, s), {s})
  {
    assert Carrying({s}, s.0.mandatory) == {s};
    EarliestOfOne(s);
    assert s in Carrying({s}, s.0.mandatory);
  }

  lemma WinsKeeps(courses: map<nat, Course>, e: Reaching, seen: set<Sighting>, s: Sighting)
    requires s.0.course in courses && Wins(courses, e, seen)
    ensures s.0.mandatory && !e.mandatory ==> Wins(courses, Terms(courses, s), seen + {s})
    ensures s.0.mandatory == e.mandatory && ReachedAt(s) < e.anchor ==>
      Wins(courses, e.(anchor := ReachedAt(s)), seen + {s})
    ensures !(s.0.mandatory && !e.mandatory) && !(s.0.mandatory == e.mandatory && ReachedAt(s) < e.anchor) ==>
      Wins(courses, e, seen + {s})
  {
    var all := seen + {s};
    EarliestOfOne(s);
    assert s in Carrying(all, s.0.mandatory);
    if s.0.mandatory == e.mandatory {
      assert Carrying(all, e.mandatory) == Carrying(seen, e.mandatory) + {s};
      EarliestOfBoth(e.anchor, Carrying(seen, e.mandatory), ReachedAt(s), {s});
      assert Carrying(all, true) != {} <==> e.mandatory;
      var w :| w in Carrying(seen, e.mandatory) && w.0.course in courses && Terms(courses, w).(anchor := e.anchor) == e;
      assert w in Carrying(all, e.mandatory);
      assert Terms(courses, w).(anchor := ReachedAt(s)) == e.(anchor := ReachedAt(s));
    } else if s.0.mandatory {
      assert Carrying(all, true) == {s};
    } else {
      assert Carrying(all, true) == Carrying(seen, true);
    }
  }

  /** The people of some rows a course placement reaches. */
  ghost function Through(t: Tables, cp: Placed, rows: seq<Occupant>): set<Sighting> {
    set o | o in rows && t.Reaches(cp, o) :: (cp, o)
  }

  /** One sighting: the first, one that brings an obligation, or an earlier one of the same kind. */
  method SightOne(courses: map<nat, Course>, cp: Placed, o: Occupant, found: map<nat, Reaching>)
    returns (byCourse: map<nat, Reaching>)
    requires cp.course in courses
    ensures byCourse == Sight(courses, found, (cp, o))
  {
    byCourse := found;
    var reachedAt := LaterOf(cp.createdAt, o.createdAt);
    var course := courses[cp.course];
    var deadlineDays := OrDefault(cp.deadlineDays, course.deadlineDays);
    var retakeEveryNDays := OrDefault(cp.retakeEveryNDays, course.retakeEveryNDays);
    if cp.course !in byCourse {
      byCourse := byCourse[cp.course := Reaching(cp.mandatory, cp.role, reachedAt, deadlineDays, retakeEveryNDays)];
    } else if cp.mandatory && !byCourse[cp.course].mandatory {
      byCourse := byCourse[cp.course := Reaching(true, cp.role, reachedAt, deadlineDays, retakeEveryNDays)];
    } else if cp.mandatory == byCourse[cp.course].mandatory && reachedAt < byCourse[cp.course].anchor {
      byCourse := byCourse[cp.course := byCourse[cp.course].(anchor := reachedAt)];
    }
  }

  /** The entries after a course placement has been held against some of a person's own, in that order. */
  function SeenThrough(t: Tables, cp: Placed, mine: seq<Occupant>, found: map<nat, Reaching>): map<nat, Reaching>
    requires cp.course in t.courses
  {
    if mine == [] then found
    else
      var before := SeenThrough(t, cp, mine[..|mine| - 1], found);
      if t.Reaches(cp, mine[|mine| - 1]) then Sight(t.courses, before, (cp, mine[|mine| - 1])) else before
  }

  lemma SeenOneMore(t: Tables, cp: Placed, mine: seq<Occupant>, j: nat, found: map<nat, Reaching>)
    requires cp.course in t.courses && j < |mine|
    ensures SeenThrough(t, cp, mine[..j + 1], found) ==
      if t.Reaches(cp, mine[j]) then Sight(t.courses, SeenThrough(t, cp, mine[..j], found), (cp, mine[j]))
      else SeenThrough(t, cp, mine[..j], found)
  {
    assert mine[..j + 1][..j] == mine[..j];
  }

  /** And after all of some course placements have. */
  function SeenAll(t: Tables, placed: seq<Placed>, mine: seq<Occupant>): map<nat, Reaching>
    requires forall cp :: cp in placed ==> cp.course in t.courses
  {
    if placed == [] then map[]
    else SeenThrough(t, placed[|placed| - 1], mine, SeenAll(t, placed[..|placed| - 1], mine))
  }

  /** The inner loop: one course placement against all of a person's own. */
  method SightThrough(t: Tables, cp: Placed, mine: seq<Occupant>, found: map<nat, Reaching>)
    returns (byCourse: map<nat, Reaching>)
    requires cp.course in t.courses
    ensures byCourse == SeenThrough(t, cp, mine, found)
  {
    byCourse := found;
    for j := 0 to |mine|
      invariant byCourse == SeenThrough(t, cp, mine[..j], found)
    {
      SeenOneMore(t, cp, mine, j, found);
      if t.Reaches(cp, mine[j]) {
        byCourse := SightOne(t.courses, cp, mine[j], byCourse);
      }
    }
    assert mine[..|mine|] == mine;
  }

  ghost function ThroughAll(t: Tables, placed: seq<Placed>, rows: seq<Occupant>): set<Sighting> {
    set cp, o | cp in placed && o in rows && t.Reaches(cp, o) :: (cp, o)
  }

  lemma ThroughOneRow(t: Tables, placed: seq<Placed>, i: nat, rows: seq<Occupant>)
    requires i < |placed|
    ensures ThroughAll(t, placed[..i + 1], rows) == ThroughAll(t, placed[..i], rows) + Through(t, placed[i], rows)
  {
    assert placed[..i + 1] == placed[..i] + [placed[i]];
  }

  /** Whatever the order of the rows, what is collected is what the sightings say. */
  lemma {:induction false} AllCollected(t: Tables, placed: seq<Placed>, mine: seq<Occupant>, n: nat)
    requires n <= |placed| && forall cp :: cp in placed ==> cp.course in t.courses
    ensures Collected(t.courses, SeenAll(t, placed[..n], mine), ThroughAll(t, placed[..n], mine))
  {
    if n == 0 {
      assert ThroughAll(t, placed[..0], mine) == {};
    } else {
      AllCollected(t, placed, mine, n - 1);
      assert placed[n - 1] in placed && placed[..n][..n - 1] == placed[..n - 1];
      ThroughOneRow(t, placed, n - 1, mine);
      ThroughCollected(t, placed[n - 1], mine, |mine|, SeenAll(t, placed[..n - 1], mine),
          ThroughAll(t, placed[..n - 1], mine));
      assert mine[..|mine|] == mine;
    }
  }

  lemma {:induction false} ThroughCollected(t: Tables, cp: Placed, mine: seq<Occupant>, j: nat,
                                            found: map<nat, Reaching>, seen: set<Sighting>)
    requires j <= |mine| && cp.course in t.courses && Collected(t.courses, found, seen)
    ensures Collected(t.courses, SeenThrough(t, cp, mine[..j], found), seen + Through(t, cp, mine[..j]))
  {
    if j == 0 {
      assert seen + Through(t, cp, mine[..0]) == seen;
    } else {
      var before, o := Through(t, cp, mine[..j - 1]), mine[j - 1];
      ThroughCollected(t, cp, mine, j - 1, found, seen);
      SeenOneMore(t, cp, mine, j - 1, found);
      ThroughOneOccupant(t, cp, mine, j - 1);
      if t.Reaches(cp, o) {
        SightKeeps(t.courses, SeenThrough(t, cp, mine[..j - 1], found), seen + before, (cp, o));
        OneMore(seen, before, Through(t, cp, mine[..j]), (cp, o));
      } else {
        assert Through(t, cp, mine[..j]) == before;
      }
    }
  }

  lemma OneMore(seen: set<Sighting>, before: set<Sighting>, after: set<Sighting>, s: Sighting)
    requires after == before + {s}
    ensures seen + after == seen + before + {s}
  {
  }

  lemma ThroughOneOccupant(t: Tables, cp: Placed, mine: seq<Occupant>, j: nat)
    requires j < |mine|
    ensures Through(t, cp, mine[..j + 1]) ==
      Through(t, cp, mine[..j]) + if t.Reaches(cp, mine[j]) then {(cp, mine[j])} else {}
  {
    assert mine[..j + 1] == mine[..j] + [mine[j]];
  }

  /** `coursesReaching`: every course reaching the person, mandatory-wins de-duplicated. */
  method CoursesReaching(t: Tables, person: nat, mine: seq<Occupant>, placed: seq<Placed>)
    returns (byCourse: map<nat, Reaching>)
    requires t.Valid()
    requires Lists(mine, set o | o in t.occupants && o.person == person)
    requires Lists(placed, set cp | cp in t.placed && cp.course in t.courses && !t.courses[cp.course].withdrawn)
    ensures Collected(t.courses, byCourse, t.SightingsOf(person))
    ensures byCourse == SeenAll(t, placed, mine)
    ensures Collected(t.courses, byCourse, t.LinkedTo(person))
  {
    t.SightingsFollowLinks(person);
    byCourse := map[];
    for i := 0 to |placed|
      invariant forall cp :: cp in placed[..i] ==> cp in placed
      invariant byCourse == SeenAll(t, placed[..i], mine)
    {
      assert placed[i] in placed && placed[..i + 1][..i] == placed[..i];
      byCourse := SightThrough(t, placed[i], mine, byCourse);
    }
    assert placed[..|placed|] == placed;
    AllCollected(t, placed, mine, |placed|);
    assert ThroughAll(t, placed, mine) == t.SightingsOf(person);
  }

  // ── The branch report ─────────────────────────────────────────────────────

  /** When a course reached a person, and when a mandatory placement of it did. */
  datatype Since = Since(at: int, mandatoryAt: Option<int>)

  function SinceOf(s: Sighting): Since { Since(ReachedAt(s), if s.0.mandatory then Some(ReachedAt(s)) else None) }

  function EarlierOf(a: Since, b: Since): Since {
    Since(
      if b.at < a.at then b.at else a.at,
      if b.mandatoryAt.Some? && (a.mandatoryAt.None? || b.mandatoryAt.value < a.mandatoryAt.value) then b.mandatoryAt
      else a.mandatoryAt)
  }

  /** Since when some sightings of one person reach them. */
  ghost predicate Dates(since: Since, seen: set<Sighting>) {
    && Earliest(since.at, seen)
    && (since.mandatoryAt.None? <==> Carrying(seen, true) == {})
    && (since.mandatoryAt.Some? ==> Earliest(since.mandatoryAt.value, Carrying(seen, true)))
  }

  lemma DatesOfOne(s: Sighting)
    ensures Dates(SinceOf(s), {s})
  {
    EarliestOfOne(s);
    assert s in {s};
    assert s.0.mandatory ==> Carrying({s}, true) == {s};
  }

  lemma DatesOfBoth(a: Since, seen: set<Sighting>, b: Since, more: set<Sighting>)
    requires Dates(a, seen) && Dates(b, more)
    ensures Dates(EarlierOf(a, b), seen + more)
  {
    EarliestOfBoth(a.at, seen, b.at, more);
    assert Carrying(seen + more, true) == Carrying(seen, true) + Carrying(more, true);
    if a.mandatoryAt.Some? && b.mandatoryAt.Some? {
      EarliestOfBoth(a.mandatoryAt.value, Carrying(seen, true), b.mandatoryAt.value, Carrying(more, true));
    } else if a.mandatoryAt.Some? {
      assert Carrying(seen + more, true) == Carrying(seen, true);
    } else if b.mandatoryAt.Some? {
      assert Carrying(seen + more, true) == Carrying(more, true);
    }
  }

  /** The audience is exactly the people some sightings show, each with their dates. */
  ghost predicate Hears(people: map<nat, Since>, seen: set<Sighting>) {
    forall p: nat ::
      && (p in people <==> ForPerson(seen, p) != {})
      && (p in people ==> Dates(people[p], ForPerson(seen, p)))
  }

  function Remembered(people: map<nat, Since>, person: nat, since: Since): map<nat, Since> {
    people[person := if person in people then EarlierOf(people[person], since) else since]
  }

  function Joined(people: map<nat, Since>, more: map<nat, Since>): map<nat, Since> {
    map p | p in people.Keys + more.Keys ::
      if p !in more then people[p] else if p !in people then more[p] else EarlierOf(people[p], more[p])
  }

  lemma RememberedHears(people: map<nat, Since>, seen: set<Sighting>, s: Sighting)
    requires Hears(people, seen)
    ensures Hears(Remembered(people, s.1.person, SinceOf(s)), seen + {s})
  {
    DatesOfOne(s);
    forall p: nat
      ensures ForPerson(seen + {s}, p) == if p == s.1.person then ForPerson(seen, p) + {s} else ForPerson(seen, p)
    {
    }
    if s.1.person in people {
      DatesOfBoth(people[s.1.person], ForPerson(seen, s.1.person), SinceOf(s), {s});
    } else {
      assert ForPerson(seen, s.1.person) + {s} == {s};
    }
  }

  lemma JoinedHears(people: map<nat, Since>, seen: set<Sighting>, more: map<nat, Since>, others: set<Sighting>)
    requires Hears(people, seen) && Hears(more, others)
    ensures Hears(Joined(people, more), seen + others)
  {
    var all := Joined(people, more);
    forall p: nat
      ensures p in all <==> ForPerson(seen + others, p) != {}
      ensures p in all ==> Dates(all[p], ForPerson(seen + others, p))
    {
      assert ForPerson(seen + others, p) == ForPerson(seen, p) + ForPerson(others, p);
      if p in people && p in more {
        DatesOfBoth(people[p], ForPerson(seen, p), more[p], ForPerson(others, p));
      } else if p in people {
        assert ForPerson(seen + others, p) == ForPerson(seen, p);
      } else if p in more {
        assert ForPerson(seen + others, p) == ForPerson(others, p);
      }
    }
  }

  /** A course's audience, updated in place. */
  class Audience {
    var people: map<nat, Since>

    constructor ()
      ensures people == map[]
    {
      people := map[];
    }

    /** `rememberReach`: one more sighting of a person, keeping the earliest of each date. */
    method Remember(person: nat, since: Since)
      modifies this
      ensures people == Remembered(old(people), person, since)
    {
      if person !in people {
        people := people[person := since];
        return;
      }
      if since.at < people[person].at {
        people := people[person := people[person].(at := since.at)];
      }
      var known := people[person].mandatoryAt;
      if since.mandatoryAt.Some? && (known.None? || since.mandatoryAt.value < known.value) {
        people := people[person := people[person].(mandatoryAt := since.mandatoryAt)];
      }
    }

    /** Folds another audience in, entry by entry. */
    method Join(more: map<nat, Since>)
      modifies this
      ensures people == Joined(old(people), more)
    {
      var rest := more.Keys;
      JoinedNone(people, more);
      while rest != {}
        invariant rest <= more.Keys
        invariant people == Joined(old(people), Without(more, rest))
        decreases |rest|
      {
        var p :| p in rest;
        JoinedOneMore(old(people), more, rest, p);
        Remember(p, more[p]);
        rest := rest - {p};
      }
      assert Without(more, {}) == more;
    }
  }

  function Without(more: map<nat, Since>, rest: set<nat>): map<nat, Since> {
    map p | p in more && p !in rest :: more[p]
  }

  lemma JoinedNone(people: map<nat, Since>, more: map<nat, Since>)
    ensures Joined(people, Without(more, more.Keys)) == people
  {
  }

  lemma JoinedOneMore(people: map<nat, Since>, more: map<nat, Since>, rest: set<nat>, p: nat)
    requires p in rest && p in more
    ensures Joined(people, Without(more, rest - {p})) == Remembered(Joined(people, Without(more, rest)), p, more[p])
  {
    var before, after := Without(more, rest), Without(more, rest - {p});
    assert after.Keys == before.Keys + {p};
  }

  /** A course's line in the report: the placement that leads it and who hears of the course. */
  datatype Line = Line(cp: Placed, audience: Audience)

  /** The placement that leads a course's line: the first mandatory one, or the first of all. */
  function Lead(done: seq<Placed>, course: nat): Option<Placed> {
    if done == [] then None
    else
      var before, cp := Lead(done[..|done| - 1], course), done[|done| - 1];
      if cp.course == course && (before.None? || (cp.mandatory && !before.value.mandatory)) then Some(cp) else before
  }

  /** There is one exactly when some placement is of the course, and it is mandatory exactly when some placement is. */
  lemma {:induction false} LeadIs(done: seq<Placed>, course: nat)
    ensures Lead(done, course).Some? <==> Touched(done, course)
    ensures Lead(done, course).Some? ==> Lead(done, course).value in done && Lead(done, course).value.course == course
    ensures (exists m :: m in done && m.course == course && m.mandatory) <==>
      Lead(done, course).Some? && Lead(done, course).value.mandatory
  {
    if done != [] {
      var rest, cp := done[..|done| - 1], done[|done| - 1];
      LeadIs(rest, course);
      assert forall m :: m in done <==> m == cp || m in rest;
    }
  }

  ghost predicate LineOk(t: Tables, course: nat, cp: Placed, people: map<nat, Since>, done: seq<Placed>,
                         rows: seq<Occupant>) {
    Lead(done, course) == Some(cp) && Hears(people, ForCourse(ThroughAll(t, done, rows), course))
  }

  lemma LeadNext(done: seq<Placed>, cp: Placed, course: nat)
    ensures Lead(done + [cp], course) ==
      if cp.course == course && (Lead(done, course).None? || (cp.mandatory && !Lead(done, course).value.mandatory))
      then Some(cp)
      else Lead(done, course)
  {
    assert (done + [cp])[..|done|] == done;
  }

  lemma ThroughOneMore(t: Tables, course: nat, done: seq<Placed>, cp: Placed, rows: seq<Occupant>)
    ensures ForCourse(ThroughAll(t, done + [cp], rows), course)
      == ForCourse(ThroughAll(t, done, rows), course) + if cp.course == course then Through(t, cp, rows) else {}
  {
  }

  lemma LineFirst(t: Tables, cp: Placed, people: map<nat, Since>, done: seq<Placed>, rows: seq<Occupant>)
    requires Hears(people, Through(t, cp, rows)) && !Touched(done, cp.course)
    ensures LineOk(t, cp.course, cp, people, done + [cp], rows)
  {
    LeadIs(done, cp.course);
    LeadNext(done, cp, cp.course);
    ThroughOneMore(t, cp.course, done, cp, rows);
    assert ForCourse(ThroughAll(t, done, rows), cp.course) == {};
    assert {} + Through(t, cp, rows) == Through(t, cp, rows);
  }

  lemma LineNext(t: Tables, lead: Placed, people: map<nat, Since>, cp: Placed, more: map<nat, Since>, done: seq<Placed>,
                 rows: seq<Occupant>)
    requires LineOk(t, cp.course, lead, people, done, rows) && Hears(more, Through(t, cp, rows))
    ensures var first := if cp.mandatory && !lead.mandatory then cp else lead;
      LineOk(t, cp.course, first, Joined(people, more), done + [cp], rows)
  {
    ThroughOneMore(t, cp.course, done, cp, rows);
    JoinedHears(people, ForCourse(ThroughAll(t, done, rows), cp.course), more, Through(t, cp, rows));
    LeadNext(done, cp, cp.course);
  }

  lemma LineOther(t: Tables, course: nat, lead: Placed, people: map<nat, Since>, cp: Placed, done: seq<Placed>,
                  rows: seq<Occupant>)
    requires LineOk(t, course, lead, people, done, rows) && cp.course != course
    ensures LineOk(t, course, lead, people, done + [cp], rows)
  {
    ThroughOneMore(t, course, done, cp, rows);
    assert ForCourse(ThroughAll(t, done, rows), course) + {} == ForCourse(ThroughAll(t, done, rows), course);
    LeadNext(done, cp, course);
  }

  predicate Touched(done: seq<Placed>, course: nat) { exists m :: m in done && m.course == course }

  ghost predicate Reports(t: Tables, byCourse: map<nat, Line>, done: seq<Placed>, rows: seq<Occupant>)
    reads set c | c in byCourse :: byCourse[c].audience
  {
    && (forall c, d :: c in byCourse && d in byCourse && c != d ==> byCourse[c].audience != byCourse[d].audience)
    && forall c: nat ::
      && (c in byCourse <==> Touched(done, c))
      && (c in byCourse ==> LineOk(t, c, byCourse[c].cp, byCourse[c].audience.people, done, rows))
  }

  /** The audience of one course placement among the branch's occupants. */
  method AudienceOf(t: Tables, cp: Placed, occupants: seq<Occupant>) returns (audience: Audience)
    requires IsTree(t.nodes) && cp.role in t.nodes && forall o :: o in occupants ==> o.role in t.nodes
    ensures fresh(audience) && Hears(audience.people, Through(t, cp, occupants))
  {
    audience := new Audience();
    assert Through(t, cp, occupants[..0]) == {};
    for i := 0 to |occupants|
      invariant fresh(audience) && Hears(audience.people, Through(t, cp, occupants[..i]))
    {
      var o := occupants[i];
      assert o in occupants;
      SameRole(t.nodes, cp.role, o.role);
      var reaches :=
        if cp.inherit then IsSelfOrAncestor(t.nodes[cp.role].path, t.nodes[o.role].path)
        else o.role == cp.role;
      ghost var before := Through(t, cp, occupants[..i]);
      if reaches {
        var at := LaterOf(cp.createdAt, o.createdAt);
        RememberedHears(audience.people, before, (cp, o));
        audience.Remember(o.person, Since(at, if cp.mandatory then Some(at) else None));
        assert Through(t, cp, occupants[..i + 1]) == before + {(cp, o)};
      } else {
        assert Through(t, cp, occupants[..i + 1]) == before;
      }
    }
    assert occupants[..|occupants|] == occupants;
  }

  lemma SameRole(nodes: map<nat, Node>, a: nat, b: nat)
    requires IsTree(nodes) && a in nodes && b in nodes
    ensures nodes[a].path == nodes[b].path <==> a == b
  {
    if nodes[a].path == nodes[b].path {
      SamePath(nodes, a, b);
    }
  }

  /** `branchCompliance`: every course that touches the branch, with everyone in the branch it reaches. */
  method BranchCompliance(t: Tables, branch: nat, occupants: seq<Occupant>, relevant: seq<Placed>)
    returns (byCourse: map<nat, Line>)
    requires t.Valid() && branch in t.nodes
    requires Lists(occupants, set o | o in t.occupants && o.role in t.nodes && t.InBranch(branch, o.role))
    requires Lists(relevant, set cp | cp in t.placed && t.Relevant(branch, cp))
    ensures Reports(t, byCourse, relevant, occupants)
    ensures forall c: nat :: ForCourse(ThroughAll(t, relevant, occupants), c) == t.SightingsIn(branch, c)
    ensures forall c: nat :: (c in byCourse <==> InView(t, branch, c))
    ensures forall c :: c in byCourse ==> Hears(byCourse[c].audience.people, t.LinkedBelow(branch, c))
  {
    byCourse := map[];
    for i := 0 to |relevant|
      invariant forall c :: c in byCourse ==> fresh(byCourse[c].audience)
      invariant Reports(t, byCourse, relevant[..i], occupants)
    {
      var cp := relevant[i];
      assert cp in relevant;
      var audience := AudienceOf(t, cp, occupants);
      byCourse := AddLine(t, byCourse, relevant[..i], cp, audience, occupants);
      assert relevant[..i + 1] == relevant[..i] + [cp];
    }
    assert relevant[..|relevant|] == relevant;
    forall c: nat
      ensures ForCourse(ThroughAll(t, relevant, occupants), c) == t.SightingsIn(branch, c)
    {
      RelevantIsEnough(t, branch, occupants, relevant, c);
    }
    forall c: nat
      ensures c in byCourse <==> InView(t, branch, c)
      ensures c in byCourse ==> Hears(byCourse[c].audience.people, t.LinkedBelow(branch, c))
    {
      t.BranchFollowsLinks(branch, c);
      TouchedIsInView(t, branch, relevant, c);
    }
  }

  /** Some placement of the course is in the branch, or is inherited from above it. */
  ghost predicate InView(t: Tables, branch: nat, course: nat)
    requires t.Valid() && branch in t.nodes
  {
    exists cp :: cp in t.placed && cp.course == course
      && (OnChain(t.nodes, branch, cp.role) || (cp.inherit && OnChain(t.nodes, cp.role, branch)))
  }

  lemma TouchedIsInView(t: Tables, branch: nat, relevant: seq<Placed>, course: nat)
    requires t.Valid() && branch in t.nodes && Lists(relevant, set cp | cp in t.placed && t.Relevant(branch, cp))
    ensures Touched(relevant, course) <==> InView(t, branch, course)
  {
    forall cp | cp in t.placed
      ensures cp in relevant <==>
        OnChain(t.nodes, branch, cp.role) || (cp.inherit && OnChain(t.nodes, cp.role, branch))
    {
      t.RelevantExactly(branch, cp);
    }
  }

  lemma RelevantIsEnough(t: Tables, branch: nat, occupants: seq<Occupant>, relevant: seq<Placed>, course: nat)
    requires t.Valid() && branch in t.nodes
    requires Lists(occupants, set o | o in t.occupants && o.role in t.nodes && t.InBranch(branch, o.role))
    requires Lists(relevant, set cp | cp in t.placed && t.Relevant(branch, cp))
    ensures ForCourse(ThroughAll(t, relevant, occupants), course) == t.SightingsIn(branch, course)
  {
    forall cp, o | cp in t.placed && o in t.occupants && t.InBranch(branch, o.role) && t.Reaches(cp, o)
      ensures t.Relevant(branch, cp)
    {
      t.ReachIsRelevant(branch, cp, o);
    }
  }

  /** Adds one placement's audience to its course's line, or opens the line. */
  method AddLine(t: Tables, lines: map<nat, Line>, ghost done: seq<Placed>, cp: Placed, audience: Audience,
                 ghost rows: seq<Occupant>)
    returns (byCourse: map<nat, Line>)
    requires Reports(t, lines, done, rows) && Hears(audience.people, Through(t, cp, rows))
    requires forall c :: c in lines ==> lines[c].audience != audience
    modifies set c | c in lines :: lines[c].audience
    ensures Reports(t, byCourse, done + [cp], rows)
    ensures forall c :: c in byCourse ==>
      byCourse[c].audience == audience || (c in lines && byCourse[c].audience == lines[c].audience)
  {
    ghost var c0 := cp.course;
    forall c | c in lines && c != c0
      ensures LineOk(t, c, lines[c].cp, lines[c].audience.people, done + [cp], rows)
    {
      LineOther(t, c, lines[c].cp, lines[c].audience.people, cp, done, rows);
    }
    if cp.course in lines {
      var existing := lines[cp.course];
      LineNext(t, existing.cp, existing.audience.people, cp, audience.people, done, rows);
      existing.audience.Join(audience.people);
      byCourse := if cp.mandatory && !existing.cp.mandatory then lines[cp.course := existing.(cp := cp)] else lines;
    } else {
      LineFirst(t, cp, audience.people, done, rows);
      byCourse := lines[cp.course := Line(cp, audience)];
    }
    forall c: nat
      ensures Touched(done + [cp], c) <==> c == c0 || Touched(done, c)
    {
      assert cp in done + [cp];
      assert forall m :: m in done ==> m in done + [cp];
    }
  }

  // ── The two views ─────────────────────────────────────────────────────────

  /** Every placement of the person is in the branch. */
  ghost predicate BelongsTo(t: Tables, person: nat, branch: nat)
    requires t.Valid() && branch in t.nodes
  {
    forall o :: o in t.occupants && o.person == person ==> t.InBranch(branch, o.role)
  }

  /** Where the report starts the person's clock. */
  function Clock(since: Since): int { if since.mandatoryAt.Some? then since.mandatoryAt.value else since.at }

  /** The person's entry and the branch's line say the same thing. */
  ghost predicate Agree(byCourse: map<nat, Reaching>, course: nat, people: map<nat, Since>, person: nat) {
    && (course in byCourse <==> person in people)
    && (course in byCourse ==>
          && (byCourse[course].mandatory <==> people[person].mandatoryAt.Some?)
          && byCourse[course].anchor == Clock(people[person]))
  }

  lemma ViewsAgree(t: Tables, branch: nat, person: nat, course: nat, byCourse: map<nat, Reaching>,
                   people: map<nat, Since>)
    requires t.Valid() && branch in t.nodes && course in t.courses && !t.courses[course].withdrawn
    requires BelongsTo(t, person, branch)
    requires Collected(t.courses, byCourse, t.SightingsOf(person)) && Hears(people, t.SightingsIn(branch, course))
    ensures Agree(byCourse, course, people, person)
  {
    SameSightings(t, branch, person, course);
    SameAnswer(t.courses, course, ForCourse(t.SightingsOf(person), course), byCourse, people, person);
  }

  /** The person's own rows and the branch's rows show the same sightings. */
  lemma SameSightings(t: Tables, branch: nat, person: nat, course: nat)
    requires t.Valid() && branch in t.nodes && course in t.courses && !t.courses[course].withdrawn
    requires BelongsTo(t, person, branch)
    ensures ForCourse(t.SightingsOf(person), course) == ForPerson(t.SightingsIn(branch, course), person)
  {
  }

  lemma SameAnswer(courses: map<nat, Course>, course: nat, seen: set<Sighting>, byCourse: map<nat, Reaching>,
                   people: map<nat, Since>, person: nat)
    requires course in byCourse <==> seen != {}
    requires course in byCourse ==> Wins(courses, byCourse[course], seen)
    requires person in people <==> seen != {}
    requires person in people ==> Dates(people[person], seen)
    ensures Agree(byCourse, course, people, person)
  {
    if seen != {} {
      SameClock(courses, byCourse[course], people[person], seen);
    }
  }

  /** One person's entry and their dates, from the same sightings: same obligation, same clock. */
  lemma SameClock(courses: map<nat, Course>, e: Reaching, since: Since, seen: set<Sighting>)
    requires Wins(courses, e, seen) && Dates(since, seen)
    ensures (e.mandatory <==> since.mandatoryAt.Some?) && e.anchor == Clock(since)
  {
    if e.mandatory {
      EarliestIsUnique(e.anchor, since.mandatoryAt.value, Carrying(seen, true));
    } else {
      NoneMandatory(seen);
      EarliestIsUnique(e.anchor, since.at, seen);
    }
  }

  lemma NoneMandatory(seen: set<Sighting>)
    requires Carrying(seen, true) == {}
    ensures Carrying(seen, false) == seen
  {
    forall s | s in seen
      ensures s in Carrying(seen, false)
    {
      assert s in Carrying(seen, true) || !s.0.mandatory;
    }
  }

  /** Run both computations over the rows in any order: they agree on who is reached and since when. */
  method BothViews(t: Tables, branch: nat, person: nat, mine: seq<Occupant>, deployed: seq<Placed>,
                   occupants: seq<Occupant>, relevant: seq<Placed>)
    returns (byCourse: map<nat, Reaching>, report: map<nat, Line>)
    requires t.Valid() && branch in t.nodes && BelongsTo(t, person, branch)
    requires Lists(mine, set o | o in t.occupants && o.person == person)
    requires Lists(deployed, set cp | cp in t.placed && cp.course in t.courses && !t.courses[cp.course].withdrawn)
    requires Lists(occupants, set o | o in t.occupants && o.role in t.nodes && t.InBranch(branch, o.role))
    requires Lists(relevant, set cp | cp in t.placed && t.Relevant(branch, cp))
    ensures forall c :: c in t.courses && !t.courses[c].withdrawn ==>
      Agree(byCourse, c, if c in report then report[c].audience.people else map[], person)
    ensures byCourse == SeenAll(t, deployed, mine) && Reports(t, report, relevant, occupants)
  {
    byCourse := CoursesReaching(t, person, mine, deployed);
    report := BranchCompliance(t, branch, occupants, relevant);
    forall c | c in t.courses && !t.courses[c].withdrawn
      ensures Agree(byCourse, c, if c in report then report[c].audience.people else map[], person)
    {
      var people := if c in report then report[c].audience.people else map[];
      if c !in report {
        NoLineNobody(t, c, relevant, occupants);
      }
      ViewsAgree(t, branch, person, c, byCourse, people);
    }
  }

  lemma NoLineNobody(t: Tables, course: nat, relevant: seq<Placed>, rows: seq<Occupant>)
    requires !Touched(relevant, course)
    ensures Hears(map[], ForCourse(ThroughAll(t, relevant, rows), course))
  {
    assert ForCourse(ThroughAll(t, relevant, rows), course) == {};
  }
}
