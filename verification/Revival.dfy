/** What an export followed by a revive keeps: the tree, the placements and who the courses reach, under new ids. */
module Revival {
  import opened Bytes
  import opened Organization
  import opened Policy
  import opened Reach
  import opened RoleTree
  import opened Visibility

  datatype Grant = Grant(canCreateSubgroups: bool, canAddCoOwners: bool, canCreateContent: bool, createdAt: int)

  /** One organization's tables. */
  datatype Snapshot = Snapshot(
    nodes: map<nat, Node>, people: map<nat, string>, seats: map<Seat, Grant>,
    courses: map<nat, Course>, placed: set<Placed>, prerequisites: set<(nat, nat)>)
  {
    /** Foreign keys hold, usernames are unique, and a course sits on a role once. */
    ghost predicate Valid() {
      && IsTree(nodes)
      && Injective(people)
      && (forall s :: s in seats ==> s.0 in people && s.1 in nodes)
      && (forall cp :: cp in placed ==> cp.course in courses && cp.role in nodes)
      && (forall cp, cq :: cp in placed && cq in placed && cp.course == cq.course && cp.role == cq.role ==> cp == cq)
      && (forall q :: q in prerequisites ==> q.0 in courses && q.1 in courses)
    }

    function Occupants(): set<Occupant> { set s | s in seats :: Occupant(s.0, s.1, seats[s].createdAt) }

    function Tables(): Tables { Reach.Tables(nodes, courses, placed, Occupants()) }

    lemma TablesAreValid()
      requires Valid()
      ensures Tables().Valid()
    {
    }
  }

  ghost predicate Injective<K, V>(m: map<K, V>) { forall a, b :: a in m && b in m && m[a] == m[b] ==> a == b }

  /** The old id of a row to the new id of its copy. */
  type Ids = map<nat, nat>

  // ── The copies ────────────────────────────────────────────────────────────

  /** A role's copy: its parent is the parent's copy, its number and path are its own. */
  predicate NodeCopied(roleIds: Ids, n: Node, copy: Node) {
    && copy.number == n.number
    && copy.path == n.path
    && copy.isPublic == (n.parent.None? || n.isPublic)
    && match n.parent
       case None => copy.parent.None?
       case Some(p) => p in roleIds && copy.parent == Some(roleIds[p])
  }

  ghost predicate NodesCopied(roleIds: Ids, nodes: map<nat, Node>, copies: map<nat, Node>) {
    && Injective(roleIds)
    && roleIds.Keys == nodes.Keys
    && (forall id :: id in nodes ==> roleIds[id] in copies && NodeCopied(roleIds, nodes[id], copies[roleIds[id]]))
    && (forall c :: c in copies ==> exists id :: id in nodes && roleIds[id] == c)
  }

  predicate GrantCopied(g: Grant, copy: Grant) {
    copy.canCreateSubgroups == g.canCreateSubgroups && copy.canAddCoOwners == g.canAddCoOwners && !copy.canCreateContent
  }

  predicate Movable(roleIds: Ids, personIds: Ids, s: Seat) { s.0 in personIds && s.1 in roleIds }

  function Moved(roleIds: Ids, personIds: Ids, s: Seat): Seat
    requires Movable(roleIds, personIds, s)
  {
    (personIds[s.0], roleIds[s.1], s.2)
  }

  /** Exactly the placements of the people found, with their kind and delegations. */
  ghost predicate SeatsCopied(roleIds: Ids, personIds: Ids, seats: map<Seat, Grant>, copies: map<Seat, Grant>) {
    && (forall s :: s in seats && Movable(roleIds, personIds, s) ==>
          Moved(roleIds, personIds, s) in copies && GrantCopied(seats[s], copies[Moved(roleIds, personIds, s)]))
    && (forall t :: t in copies ==>
          exists s :: s in seats && Movable(roleIds, personIds, s) && Moved(roleIds, personIds, s) == t)
  }

  function CourseCopy(c: Course): Course { c.(withdrawn := false) }

  ghost predicate CoursesCopied(courseIds: Ids, courses: map<nat, Course>, copies: map<nat, Course>) {
    && Injective(courseIds)
    && courseIds.Keys == courses.Keys
    && (forall id :: id in courses ==> courseIds[id] in copies && copies[courseIds[id]] == CourseCopy(courses[id]))
    && (forall c :: c in copies ==> exists id :: id in courses && courseIds[id] == c)
  }

  /** A course placement's copy: the per-branch overrides are not restored and its clock starts now. */
  function PlacedCopy(courseIds: Ids, roleIds: Ids, now: int, cp: Placed): Placed
    requires cp.course in courseIds && cp.role in roleIds
  {
    Placed(courseIds[cp.course], roleIds[cp.role], cp.mandatory, cp.inherit, now, None, None)
  }

  ghost function PlacedCopies(courseIds: Ids, roleIds: Ids, now: int, placed: set<Placed>): set<Placed> {
    set cp | cp in placed && cp.course in courseIds && cp.role in roleIds :: PlacedCopy(courseIds, roleIds, now, cp)
  }

  ghost function PrerequisiteCopies(courseIds: Ids, prerequisites: set<(nat, nat)>): set<(nat, nat)> {
    set q | q in prerequisites && q.0 in courseIds && q.1 in courseIds :: (courseIds[q.0], courseIds[q.1])
  }

  /** The revived organization is the exported one under new ids, as far as its people are known. */
  ghost predicate Copied(org: Snapshot, roleIds: Ids, personIds: Ids, courseIds: Ids, now: int, copy: Snapshot) {
    && NodesCopied(roleIds, org.nodes, copy.nodes)
    && Injective(personIds)
    && SeatsCopied(roleIds, personIds, org.seats, copy.seats)
    && CoursesCopied(courseIds, org.courses, copy.courses)
    && copy.placed == PlacedCopies(courseIds, roleIds, now, org.placed)
    && copy.prerequisites == PrerequisiteCopies(courseIds, org.prerequisites)
  }

  // ── The tree ──────────────────────────────────────────────────────────────

  lemma TreeIsRestored(roleIds: Ids, nodes: map<nat, Node>, copies: map<nat, Node>)
    requires IsTree(nodes) && NodesCopied(roleIds, nodes, copies)
    ensures IsTree(copies)
  {
    forall c | c in copies
      ensures PathOk(copies, c)
    {
      var id :| id in nodes && roleIds[id] == c;
      assert PathOk(nodes, id);
    }
  }

  /** Ancestry is the same on both sides. */
  lemma AncestryIsRestored(roleIds: Ids, nodes: map<nat, Node>, copies: map<nat, Node>, a: nat, n: nat)
    requires IsTree(nodes) && NodesCopied(roleIds, nodes, copies) && a in nodes && n in nodes
    ensures IsTree(copies)
    ensures OnChain(copies, roleIds[a], roleIds[n]) <==> OnChain(nodes, a, n)
  {
    TreeIsRestored(roleIds, nodes, copies);
    PathsAreAncestry(nodes, a, n);
    PathsAreAncestry(copies, roleIds[a], roleIds[n]);
  }

  /** The revived organization keeps every promise about numbering: none is reused, and there is one root. */
  lemma NumberingIsRestored(roleIds: Ids, nodes: map<nat, Node>, copies: map<nat, Node>, next: nat, root: nat,
                            given: set<nat>)
    requires TreeOk(nodes, next, root, given) && NodesCopied(roleIds, nodes, copies)
    ensures TreeOk(copies, next, roleIds[root], given)
  {
    TreeIsRestored(roleIds, nodes, copies);
  }

  // ── Who may do what ───────────────────────────────────────────────────────

  function FlagsOf(seats: map<Seat, Grant>): map<Seat, Flags> {
    map s | s in seats :: Flags(seats[s].canCreateSubgroups, seats[s].canAddCoOwners)
  }

  /** A person who is known may do to a role's copy what they could do to the role. */
  lemma AuthorityIsRestored(org: Snapshot, roleIds: Ids, personIds: Ids, copy: Snapshot, person: nat, action: Action,
                            n: nat)
    requires org.Valid() && n in org.nodes && person in personIds && Injective(personIds)
    requires NodesCopied(roleIds, org.nodes, copy.nodes) && SeatsCopied(roleIds, personIds, org.seats, copy.seats)
    ensures Can(RefsOf(copy.nodes, FlagsOf(copy.seats), personIds[person]), action, copy.nodes[roleIds[n]].path)
      <==> Can(RefsOf(org.nodes, FlagsOf(org.seats), person), action, org.nodes[n].path)
  {
    var was := RefsOf(org.nodes, FlagsOf(org.seats), person);
    var now := RefsOf(copy.nodes, FlagsOf(copy.seats), personIds[person]);
    forall p | p in was
      ensures Echoed(p, now)
    {
      var q := RefCarriesOver(org, roleIds, personIds, copy, person, p);
    }
    forall q | q in now
      ensures Echoed(q, was)
    {
      var p := RefCarriesBack(org, roleIds, personIds, copy, person, q);
      assert p == q.(role := p.role);
    }
    SameRuling(was, now, action, org.nodes[n].path);
  }

  /** The same placement, on a role of another id. */
  ghost predicate Echoed(p: PlacementRef, refs: set<PlacementRef>) { exists q :: q in refs && q == p.(role := q.role) }

  /** The policy never looks at a role's id. */
  lemma SameRuling(refs: set<PlacementRef>, others: set<PlacementRef>, action: Action, path: string)
    requires forall p :: p in refs ==> Echoed(p, others)
    requires forall p :: p in others ==> Echoed(p, refs)
    ensures Can(refs, action, path) <==> Can(others, action, path)
  {
    OneDecides(refs, action, path);
    OneDecides(others, action, path);
    SameDeciders(refs, others, action, path);
  }

  lemma SameDeciders(refs: set<PlacementRef>, others: set<PlacementRef>, action: Action, path: string)
    requires forall p :: p in refs ==> Echoed(p, others)
    requires forall p :: p in others ==> Echoed(p, refs)
    ensures SomeDecides(refs, action, path) <==> SomeDecides(others, action, path)
  {
    if SomeDecides(refs, action, path) {
      EchoDecides(refs, others, action, path);
    }
    if SomeDecides(others, action, path) {
      EchoDecides(others, refs, action, path);
    }
  }

  lemma EchoDecides(refs: set<PlacementRef>, others: set<PlacementRef>, action: Action, path: string)
    requires forall p :: p in refs ==> Echoed(p, others)
    requires SomeDecides(refs, action, path)
    ensures SomeDecides(others, action, path)
  {
    var p :| p in refs && Decides(p, action, path);
    var q :| q in others && q == p.(role := q.role);
    assert Decides(q, action, path);
  }

  /** A placement and its copy are the same to the policy, but for the role's id. */
  lemma RefMoves(org: Snapshot, roleIds: Ids, personIds: Ids, copy: Snapshot, s: Seat)
    requires org.Valid() && s in org.seats && Movable(roleIds, personIds, s)
    requires NodesCopied(roleIds, org.nodes, copy.nodes) && SeatsCopied(roleIds, personIds, org.seats, copy.seats)
    ensures var t := Moved(roleIds, personIds, s);
      && t in FlagsOf(copy.seats) && t.1 in copy.nodes
      && RefOf(copy.nodes, FlagsOf(copy.seats), t) == RefOf(org.nodes, FlagsOf(org.seats), s).(role := t.1)
  {
  }

  lemma RefCarriesOver(org: Snapshot, roleIds: Ids, personIds: Ids, copy: Snapshot, person: nat, p: PlacementRef)
    returns (q: PlacementRef)
    requires org.Valid() && person in personIds
    requires NodesCopied(roleIds, org.nodes, copy.nodes) && SeatsCopied(roleIds, personIds, org.seats, copy.seats)
    requires p in RefsOf(org.nodes, FlagsOf(org.seats), person)
    ensures q in RefsOf(copy.nodes, FlagsOf(copy.seats), personIds[person]) && q == p.(role := q.role)
  {
    var s :| s in FlagsOf(org.seats) && s.0 == person && s.1 in org.nodes
      && p == RefOf(org.nodes, FlagsOf(org.seats), s);
    RefMoves(org, roleIds, personIds, copy, s);
    q := RefOf(copy.nodes, FlagsOf(copy.seats), Moved(roleIds, personIds, s));
  }

  lemma RefCarriesBack(org: Snapshot, roleIds: Ids, personIds: Ids, copy: Snapshot, person: nat, q: PlacementRef)
    returns (p: PlacementRef)
    requires org.Valid() && person in personIds && Injective(personIds)
    requires NodesCopied(roleIds, org.nodes, copy.nodes) && SeatsCopied(roleIds, personIds, org.seats, copy.seats)
    requires q in RefsOf(copy.nodes, FlagsOf(copy.seats), personIds[person])
    ensures p in RefsOf(org.nodes, FlagsOf(org.seats), person) && q == p.(role := q.role)
  {
    var t :| t in FlagsOf(copy.seats) && t.0 == personIds[person] && t.1 in copy.nodes
      && q == RefOf(copy.nodes, FlagsOf(copy.seats), t);
    var s := SeatBehind(roleIds, personIds, org.seats, copy.seats, person, t);
    RefMoves(org, roleIds, personIds, copy, s);
    assert s in FlagsOf(org.seats);
    p := RefOf(org.nodes, FlagsOf(org.seats), s);
  }

  lemma SeatBehind(roleIds: Ids, personIds: Ids, seats: map<Seat, Grant>, copies: map<Seat, Grant>, person: nat,
                   t: Seat)
    returns (s: Seat)
    requires SeatsCopied(roleIds, personIds, seats, copies) && Injective(personIds) && person in personIds
    requires t in copies && t.0 == personIds[person]
    ensures s in seats && s.0 == person && Movable(roleIds, personIds, s) && Moved(roleIds, personIds, s) == t
  {
    s :| s in seats && Movable(roleIds, personIds, s) && Moved(roleIds, personIds, s) == t;
  }

  // ── Who sees what ─────────────────────────────────────────────────────────

  /** A role is above another exactly when its copy is. */
  lemma LinksAreRestored(roleIds: Ids, nodes: map<nat, Node>, copies: map<nat, Node>, a: nat, n: nat)
    requires IsTree(nodes) && NodesCopied(roleIds, nodes, copies) && a in nodes && n in nodes
    ensures IsTree(copies) && roleIds[a] in copies && roleIds[n] in copies
    ensures OnChain(copies, roleIds[a], roleIds[n]) <==> OnChain(nodes, a, n)
    ensures StrictlyAbove(copies, roleIds[a], roleIds[n]) <==> StrictlyAbove(nodes, a, n)
  {
    AncestryIsRestored(roleIds, nodes, copies, a, n);
    StrictMeansOther(nodes, a, n);
    StrictMeansOther(copies, roleIds[a], roleIds[n]);
  }

  /** A copy is open all the way when the role was; the root's is, whatever the root was. */
  lemma OpenIsRestored(roleIds: Ids, nodes: map<nat, Node>, copies: map<nat, Node>, n: nat)
    requires IsTree(nodes) && NodesCopied(roleIds, nodes, copies) && n in nodes
    ensures IsTree(copies)
    ensures OpenAllTheWay(copies, roleIds[n]) <==> nodes[n].parent.None? || OpenAllTheWay(nodes, n)
  {
    TreeIsRestored(roleIds, nodes, copies);
    forall a | a in nodes
      ensures roleIds[a] in copies && NodeCopied(roleIds, nodes[a], copies[roleIds[a]])
      ensures StrictlyAbove(copies, roleIds[a], roleIds[n]) <==> StrictlyAbove(nodes, a, n)
    {
      LinksAreRestored(roleIds, nodes, copies, a, n);
    }
  }

  /** Whoever is known sees the copy of a role exactly when they saw the role; the root everybody sees. */
  lemma SightIsRestored(org: Snapshot, roleIds: Ids, personIds: Ids, copy: Snapshot, person: nat, n: nat)
    requires org.Valid() && n in org.nodes && person in personIds && Injective(personIds)
    requires NodesCopied(roleIds, org.nodes, copy.nodes) && SeatsCopied(roleIds, personIds, org.seats, copy.seats)
    ensures roleIds[n] in Slice(copy.nodes, FlagsOf(copy.seats), personIds[person]) <==>
      org.nodes[n].parent.None? || n in Slice(org.nodes, FlagsOf(org.seats), person)
  {
    TreeIsRestored(roleIds, org.nodes, copy.nodes);
    SliceExactly(org.nodes, FlagsOf(org.seats), person, n);
    SliceExactly(copy.nodes, FlagsOf(copy.seats), personIds[person], roleIds[n]);
    OwningIsRestored(org, roleIds, personIds, copy, person, n);
    SittingIsRestored(org, roleIds, personIds, copy, person, n);
    LeadingIsRestored(org, roleIds, copy, n);
  }

  lemma OwningIsRestored(org: Snapshot, roleIds: Ids, personIds: Ids, copy: Snapshot, person: nat, n: nat)
    requires org.Valid() && n in org.nodes && person in personIds && Injective(personIds) && IsTree(copy.nodes)
    requires NodesCopied(roleIds, org.nodes, copy.nodes) && SeatsCopied(roleIds, personIds, org.seats, copy.seats)
    ensures OwnsAbove(copy.nodes, FlagsOf(copy.seats), personIds[person], roleIds[n]) <==>
      OwnsAbove(org.nodes, FlagsOf(org.seats), person, n)
  {
    if o :| OwnsAt(org.nodes, FlagsOf(org.seats), person, n, o) {
      LinksAreRestored(roleIds, org.nodes, copy.nodes, o, n);
      SeatMoves(roleIds, personIds, org.seats, copy.seats, (person, o, Kind.Owner));
      assert OwnsAt(copy.nodes, FlagsOf(copy.seats), personIds[person], roleIds[n], roleIds[o]);
    }
    if o :| OwnsAt(copy.nodes, FlagsOf(copy.seats), personIds[person], roleIds[n], o) {
      var s := SeatBehind(roleIds, personIds, org.seats, copy.seats, person, (personIds[person], o, Kind.Owner));
      LinksAreRestored(roleIds, org.nodes, copy.nodes, s.1, n);
      assert OwnsAt(org.nodes, FlagsOf(org.seats), person, n, s.1);
    }
  }

  lemma SeatMoves(roleIds: Ids, personIds: Ids, seats: map<Seat, Grant>, copies: map<Seat, Grant>, s: Seat)
    requires SeatsCopied(roleIds, personIds, seats, copies) && s in seats && Movable(roleIds, personIds, s)
    ensures Moved(roleIds, personIds, s) in FlagsOf(copies)
  {
  }

  lemma SittingIsRestored(org: Snapshot, roleIds: Ids, personIds: Ids, copy: Snapshot, person: nat, n: nat)
    requires org.Valid() && n in org.nodes && person in personIds && Injective(personIds) && IsTree(copy.nodes)
    requires NodesCopied(roleIds, org.nodes, copy.nodes) && SeatsCopied(roleIds, personIds, org.seats, copy.seats)
    ensures SitsBelow(copy.nodes, FlagsOf(copy.seats), personIds[person], roleIds[n]) <==>
      SitsBelow(org.nodes, FlagsOf(org.seats), person, n)
  {
    if s :| SitsAt(org.nodes, FlagsOf(org.seats), person, n, s) {
      LinksAreRestored(roleIds, org.nodes, copy.nodes, n, s.1);
      SeatMoves(roleIds, personIds, org.seats, copy.seats, s);
      assert SitsAt(copy.nodes, FlagsOf(copy.seats), personIds[person], roleIds[n], Moved(roleIds, personIds, s));
    }
    if t :| SitsAt(copy.nodes, FlagsOf(copy.seats), personIds[person], roleIds[n], t) {
      var s := SeatBehind(roleIds, personIds, org.seats, copy.seats, person, t);
      LinksAreRestored(roleIds, org.nodes, copy.nodes, n, s.1);
      assert SitsAt(org.nodes, FlagsOf(org.seats), person, n, s);
    }
  }

  lemma LeadingIsRestored(org: Snapshot, roleIds: Ids, copy: Snapshot, n: nat)
    requires org.Valid() && n in org.nodes && IsTree(copy.nodes) && NodesCopied(roleIds, org.nodes, copy.nodes)
    ensures LeadsToOpen(copy.nodes, roleIds[n]) <==> org.nodes[n].parent.None? || LeadsToOpen(org.nodes, n)
  {
    if org.nodes[n].parent.None? {
      LeadMoves(org, roleIds, copy, n, n);
      assert LeadsTo(copy.nodes, roleIds[n], roleIds[n]);
    }
    if m :| LeadsTo(org.nodes, n, m) {
      LeadMoves(org, roleIds, copy, n, m);
      assert LeadsTo(copy.nodes, roleIds[n], roleIds[m]);
    }
    if c :| LeadsTo(copy.nodes, roleIds[n], c) {
      var m :| m in org.nodes && roleIds[m] == c;
      LeadMoves(org, roleIds, copy, n, m);
      assert org.nodes[n].parent.Some? ==> LeadsTo(org.nodes, n, m);
    }
  }

  lemma LeadMoves(org: Snapshot, roleIds: Ids, copy: Snapshot, n: nat, m: nat)
    requires org.Valid() && n in org.nodes && m in org.nodes && IsTree(copy.nodes)
    requires NodesCopied(roleIds, org.nodes, copy.nodes)
    ensures org.nodes[n].parent.Some? ==>
      (LeadsTo(copy.nodes, roleIds[n], roleIds[m]) <==> LeadsTo(org.nodes, n, m))
    ensures LeadsTo(org.nodes, n, m) ==> LeadsTo(copy.nodes, roleIds[n], roleIds[m])
    ensures org.nodes[n].parent.None? ==> LeadsTo(copy.nodes, roleIds[n], roleIds[n])
  {
    OpenIsRestored(roleIds, org.nodes, copy.nodes, n);
    OpenIsRestored(roleIds, org.nodes, copy.nodes, m);
    LinksAreRestored(roleIds, org.nodes, copy.nodes, n, m);
    LinksAreRestored(roleIds, org.nodes, copy.nodes, n, n);
    if org.nodes[m].parent.None? {
      assert OnChain(org.nodes, n, m) ==> n == m;
    }
  }

  // ── Who the courses reach ─────────────────────────────────────────────────

  lemma CopyIsValid(org: Snapshot, roleIds: Ids, personIds: Ids, courseIds: Ids, now: int, copy: Snapshot)
    requires org.Valid() && Copied(org, roleIds, personIds, courseIds, now, copy)
    ensures copy.Tables().Valid()
  {
    TreeIsRestored(roleIds, org.nodes, copy.nodes);
    forall o | o in copy.Occupants()
      ensures o.role in copy.nodes
    {
      var t :| t in copy.seats && o == Occupant(t.0, t.1, copy.seats[t].createdAt);
      var s :| s in org.seats && Movable(roleIds, personIds, s) && Moved(roleIds, personIds, s) == t;
    }
  }

  /** What `coursesReaching` answers for the person. */
  ghost predicate Reached(t: Tables, person: nat, byCourse: map<nat, Reaching>) {
    t.Valid() && Collected(t.courses, byCourse, t.SightingsOf(person))
  }

  /** Some way the course reaches the person, whether or not it is in deployment. */
  ghost predicate Arrives(t: Tables, course: nat, person: nat, mandatory: bool) {
    exists s: Sighting :: Arrival(t, s, course, person, mandatory)
  }

  ghost predicate Arrival(t: Tables, s: Sighting, course: nat, person: nat, mandatory: bool) {
    && s.0 in t.placed
    && s.1 in t.occupants
    && s.0.course == course
    && s.1.person == person
    && s.0.mandatory == mandatory
    && t.Reaches(s.0, s.1)
  }

  lemma ArrivalMoves(org: Snapshot, roleIds: Ids, personIds: Ids, courseIds: Ids, now: int, copy: Snapshot, course: nat,
                     person: nat, mandatory: bool)
    requires org.Valid() && Copied(org, roleIds, personIds, courseIds, now, copy)
    requires course in org.courses && person in personIds && Arrives(org.Tables(), course, person, mandatory)
    ensures Arrives(copy.Tables(), courseIds[course], personIds[person], mandatory)
  {
    var a: Sighting :| Arrival(org.Tables(), a, course, person, mandatory);
    var cp, o := a.0, a.1;
    var s :| s in org.seats && o == Occupant(s.0, s.1, org.seats[s].createdAt);
    var t := Moved(roleIds, personIds, s);
    var o' := Occupant(t.0, t.1, copy.seats[t].createdAt);
    assert o' in copy.Occupants();
    var cp' := PlacedCopy(courseIds, roleIds, now, cp);
    assert cp' in copy.placed;
    assert Arrival(copy.Tables(), (cp', o'), courseIds[course], personIds[person], mandatory);
  }

  lemma ArrivalMovesBack(org: Snapshot, roleIds: Ids, personIds: Ids, courseIds: Ids, now: int, copy: Snapshot,
                         course: nat, person: nat, mandatory: bool)
    requires org.Valid() && Copied(org, roleIds, personIds, courseIds, now, copy)
    requires course in org.courses && person in personIds
    requires Arrives(copy.Tables(), courseIds[course], personIds[person], mandatory)
    ensures Arrives(org.Tables(), course, person, mandatory)
  {
    var a: Sighting :| Arrival(copy.Tables(), a, courseIds[course], personIds[person], mandatory);
    var cp', o' := a.0, a.1;
    var t :| t in copy.seats && o' == Occupant(t.0, t.1, copy.seats[t].createdAt);
    var s :| s in org.seats && Movable(roleIds, personIds, s) && Moved(roleIds, personIds, s) == t;
    var cp :| cp in org.placed && cp.course in courseIds && cp.role in roleIds
      && PlacedCopy(courseIds, roleIds, now, cp) == cp';
    var o := Occupant(s.0, s.1, org.seats[s].createdAt);
    assert o in org.Occupants();
    assert Arrival(org.Tables(), (cp, o), course, person, mandatory);
  }

  lemma ArrivalIsRestored(org: Snapshot, roleIds: Ids, personIds: Ids, courseIds: Ids, now: int, copy: Snapshot,
                          course: nat, person: nat, mandatory: bool)
    requires org.Valid() && Copied(org, roleIds, personIds, courseIds, now, copy)
    requires course in org.courses && person in personIds
    ensures Arrives(copy.Tables(), courseIds[course], personIds[person], mandatory) <==>
      Arrives(org.Tables(), course, person, mandatory)
  {
    if Arrives(org.Tables(), course, person, mandatory) {
      ArrivalMoves(org, roleIds, personIds, courseIds, now, copy, course, person, mandatory);
    }
    if Arrives(copy.Tables(), courseIds[course], personIds[person], mandatory) {
      ArrivalMovesBack(org, roleIds, personIds, courseIds, now, copy, course, person, mandatory);
    }
  }

  lemma ArrivalIsSighted(t: Tables, person: nat, course: nat, mandatory: bool)
    requires t.Valid() && course in t.courses && !t.courses[course].withdrawn
    ensures Arrives(t, course, person, mandatory) <==>
      Carrying(ForCourse(t.SightingsOf(person), course), mandatory) != {}
  {
    var found := Carrying(ForCourse(t.SightingsOf(person), course), mandatory);
    if Arrives(t, course, person, mandatory) {
      var s: Sighting :| Arrival(t, s, course, person, mandatory);
      assert s in found;
    }
    if found != {} {
      var s :| s in found;
      assert Arrival(t, s, course, person, mandatory);
    }
  }

  /** A course is listed exactly when it is in deployment and arrives, as mandatory when it arrives so. */
  ghost predicate Tells(t: Tables, person: nat, course: nat, byCourse: map<nat, Reaching>)
    requires course in t.courses
  {
    && (course in byCourse <==>
          !t.courses[course].withdrawn && (Arrives(t, course, person, true) || Arrives(t, course, person, false)))
    && (course in byCourse ==> (byCourse[course].mandatory <==> Arrives(t, course, person, true)))
  }

  /** `coursesReaching` tells every course of a person. */
  lemma ReachedMeansArrives(t: Tables, person: nat, course: nat, byCourse: map<nat, Reaching>)
    requires Reached(t, person, byCourse) && course in t.courses
    ensures Tells(t, person, course, byCourse)
  {
    var seen := ForCourse(t.SightingsOf(person), course);
    if !t.courses[course].withdrawn {
      ArrivalIsSighted(t, person, course, true);
      ArrivalIsSighted(t, person, course, false);
    }
    if seen != {} {
      var s :| s in seen;
      assert s in Carrying(seen, s.0.mandatory);
    }
  }

  /**
   * The same people are reached by the same courses, with the same obligation. A withdrawn course is the
   * exception: its copy is in deployment again, and reaches everybody its placements reach.
   */
  lemma ReachIsRestored(org: Snapshot, roleIds: Ids, personIds: Ids, courseIds: Ids, now: int, copy: Snapshot,
                        course: nat, person: nat, byCourse: map<nat, Reaching>, revived: map<nat, Reaching>)
    requires org.Valid() && Copied(org, roleIds, personIds, courseIds, now, copy) && course in org.courses
    requires person in personIds
    requires Tells(org.Tables(), person, course, byCourse)
    requires courseIds[course] in copy.courses && Tells(copy.Tables(), personIds[person], courseIds[course], revived)
    ensures courseIds[course] in revived <==>
      Arrives(org.Tables(), course, person, true) || Arrives(org.Tables(), course, person, false)
    ensures course in byCourse <==> !org.courses[course].withdrawn && courseIds[course] in revived
    ensures course in byCourse ==> revived[courseIds[course]].mandatory == byCourse[course].mandatory
  {
    ArrivalsAreRestored(org, roleIds, personIds, courseIds, now, copy, course, person);
  }

  lemma ArrivalsAreRestored(org: Snapshot, roleIds: Ids, personIds: Ids, courseIds: Ids, now: int, copy: Snapshot,
                            course: nat, person: nat)
    requires org.Valid() && Copied(org, roleIds, personIds, courseIds, now, copy) && course in org.courses
    requires person in personIds
    ensures org.Tables().Valid() && courseIds[course] in copy.courses && !copy.courses[courseIds[course]].withdrawn
    ensures Arrives(copy.Tables(), courseIds[course], personIds[person], true) <==>
      Arrives(org.Tables(), course, person, true)
    ensures Arrives(copy.Tables(), courseIds[course], personIds[person], false) <==>
      Arrives(org.Tables(), course, person, false)
  {
    org.TablesAreValid();
    ArrivalIsRestored(org, roleIds, personIds, courseIds, now, copy, course, person, true);
    ArrivalIsRestored(org, roleIds, personIds, courseIds, now, copy, course, person, false);
  }

  /**
   * The person's course list and the one their profile here gets: the same courses in deployment, with the same
   * obligation.
   */
  ghost predicate SameList(org: Snapshot, courseIds: Ids, byCourse: map<nat, Reaching>, revived: map<nat, Reaching>)
    requires courseIds.Keys == org.courses.Keys
  {
    && (forall c :: c in byCourse ==>
          c in org.courses && courseIds[c] in revived && revived[courseIds[c]].mandatory == byCourse[c].mandatory)
    && (forall c :: c in org.courses && courseIds[c] in revived && !org.courses[c].withdrawn ==> c in byCourse)
    && (forall d :: d in revived ==> exists c :: c in org.courses && courseIds[c] == d)
  }

  /**
   * Everybody in the organization is in its copy, and `coursesReaching` lists the same for them, however the rows
   * come.
   */
  ghost predicate SameReach(org: Snapshot, personIds: Ids, courseIds: Ids, copy: Snapshot) {
    && personIds.Keys == org.people.Keys && courseIds.Keys == org.courses.Keys
    && forall person: nat, byCourse: map<nat, Reaching>, revived: map<nat, Reaching> | person in org.people ::
      Reached(org.Tables(), person, byCourse) && Reached(copy.Tables(), personIds[person], revived) ==>
        SameList(org, courseIds, byCourse, revived)
  }

  lemma WholeReachIsRestored(org: Snapshot, roleIds: Ids, personIds: Ids, courseIds: Ids, now: int, copy: Snapshot)
    requires org.Valid() && Copied(org, roleIds, personIds, courseIds, now, copy) && personIds.Keys == org.people.Keys
    ensures SameReach(org, personIds, courseIds, copy)
  {
    forall person: nat, byCourse: map<nat, Reaching>, revived: map<nat, Reaching> |
      person in org.people && Reached(org.Tables(), person, byCourse)
      && Reached(copy.Tables(), personIds[person], revived)
      ensures SameList(org, courseIds, byCourse, revived)
    {
      forall course | course in org.courses
        ensures course in byCourse <==> !org.courses[course].withdrawn && courseIds[course] in revived
        ensures course in byCourse ==> revived[courseIds[course]].mandatory == byCourse[course].mandatory
      {
        ReachedMeansArrives(org.Tables(), person, course, byCourse);
        ReachedMeansArrives(copy.Tables(), personIds[person], courseIds[course], revived);
        ReachIsRestored(org, roleIds, personIds, courseIds, now, copy, course, person, byCourse, revived);
      }
      OnlyOwnCourses(org.Tables(), person, byCourse);
      OnlyOwnCourses(copy.Tables(), personIds[person], revived);
    }
  }

  lemma OnlyOwnCourses(t: Tables, person: nat, byCourse: map<nat, Reaching>)
    requires Reached(t, person, byCourse)
    ensures forall c :: c in byCourse ==> c in t.courses
  {
    forall c | c in byCourse
      ensures c in t.courses
    {
      var s :| s in ForCourse(t.SightingsOf(person), c);
    }
  }

  /** Per-branch deadlines are gone: every revived course falls back on its own. */
  lemma TermsFallBack(org: Snapshot, roleIds: Ids, courseIds: Ids, now: int, copy: Snapshot, course: nat, person: nat,
                      revived: map<nat, Reaching>)
    requires CoursesCopied(courseIds, org.courses, copy.courses) && course in org.courses
    requires copy.placed == PlacedCopies(courseIds, roleIds, now, org.placed)
    requires Reached(copy.Tables(), person, revived)
    requires courseIds[course] in revived
    ensures revived[courseIds[course]].deadlineDays == org.courses[course].deadlineDays
    ensures revived[courseIds[course]].retakeEveryNDays == org.courses[course].retakeEveryNDays
  {
    var c := courseIds[course];
    var e, seen := revived[c], ForCourse(copy.Tables().SightingsOf(person), c);
    var s := WinningSighting(copy.courses, e, seen);
    assert s.0 in copy.placed && s.0.deadlineDays.None? && s.0.retakeEveryNDays.None?;
  }

  lemma WinningSighting(courses: map<nat, Course>, e: Reaching, seen: set<Sighting>) returns (s: Sighting)
    requires Wins(courses, e, seen)
    ensures s in seen && s.0.course in courses && Terms(courses, s).(anchor := e.anchor) == e
  {
    s :| s in Carrying(seen, e.mandatory) && s.0.course in courses && Terms(courses, s).(anchor := e.anchor) == e;
  }
}
