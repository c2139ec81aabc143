/** The revive transaction, row by row, and the registrations that complete it. */
module Revive {
  import opened Bytes
  import opened Policy
  import opened Reach
  import opened Revival
  import opened RoleTree

  /** What a `.main` file carries: every table's rows, in the order the database returned them. */
  datatype Payload = Payload(
    roles: seq<(nat, Node)>, people: seq<(nat, string)>, placements: seq<(Seat, Grant)>,
    courses: seq<(nat, Course)>, coursePlacements: seq<Placed>, prerequisites: seq<(nat, nat)>)

  datatype Invitation = Invitation(username: string, role: nat, kind: Kind, canCreateSubgroups: bool,
      canAddCoOwners: bool)

  // ── Listings ──────────────────────────────────────────────────────────────

  ghost predicate ListsMap<K(!new), V(!new)>(rows: seq<(K, V)>, table: map<K, V>) {
    && (forall r: (K, V) :: r in rows <==> r.0 in table && table[r.0] == r.1)
    && NoRepeat(rows)
  }

  ghost predicate NoRepeat<K, V>(rows: seq<(K, V)>) { forall i, j :: 0 <= i < j < |rows| ==> rows[i].0 != rows[j].0 }

  lemma OneMoreElement<T>(rows: seq<T>, i: nat)
    requires i < |rows|
    ensures Elements(rows[..i + 1]) == Elements(rows[..i]) + {rows[i]}
  {
  }

  /** The rows read so far, as a table. */
  ghost predicate Listed<K(!new), V(!new)>(rows: seq<(K, V)>, done: map<K, V>) {
    forall r: (K, V) :: r in rows <==> r.0 in done && done[r.0] == r.1
  }

  lemma NextListed<K(!new), V(!new)>(rows: seq<(K, V)>, i: nat, done: map<K, V>)
    requires i < |rows| && NoRepeat(rows) && Listed(rows[..i], done)
    ensures rows[i].0 !in done && Listed(rows[..i + 1], done[rows[i].0 := rows[i].1])
  {
    forall k | k in done
      ensures (k, done[k]) in rows[..i] && k != rows[i].0
    {
    }
    assert rows[..i + 1] == rows[..i] + [rows[i]];
  }

  lemma AllListed<K(!new), V(!new)>(rows: seq<(K, V)>, table: map<K, V>, done: map<K, V>)
    requires ListsMap(rows, table) && Listed(rows[..|rows|], done)
    ensures done == table
  {
    assert rows[..|rows|] == rows;
    forall k | k in table
      ensures k in done && done[k] == table[k]
    {
      assert (k, table[k]) in rows;
    }
    forall k | k in done
      ensures k in table
    {
      assert (k, done[k]) in rows;
    }
  }

  ghost predicate Exports(org: Snapshot, payload: Payload) {
    && ListsMap(payload.roles, org.nodes)
    && ListsMap(payload.people, org.people)
    && ListsMap(payload.placements, org.seats)
    && ListsMap(payload.courses, org.courses)
    && Lists(payload.coursePlacements, org.placed)
    && Lists(payload.prerequisites, org.prerequisites)
  }

  ghost predicate ByLength(rows: seq<(nat, Node)>) {
    forall i, j :: 0 <= i < j < |rows| ==> |rows[i].1.path| <= |rows[j].1.path|
  }

  /** The payload's roles, shortest path first. */
  method SortByPath(rows: seq<(nat, Node)>) returns (sorted: seq<(nat, Node)>)
    requires NoRepeat(rows)
    ensures ByLength(sorted) && NoRepeat(sorted) && forall r :: r in sorted <==> r in rows
  {
    sorted := [];
    for i := 0 to |rows|
      invariant ByLength(sorted) && NoRepeat(sorted) && forall r :: r in sorted <==> r in rows[..i]
    {
      var k := |sorted|;
      while k > 0 && |sorted[k - 1].1.path| > |rows[i].1.path|
        invariant 0 <= k <= |sorted|
        invariant forall j :: k <= j < |sorted| ==> |sorted[j].1.path| > |rows[i].1.path|
      {
        k := k - 1;
      }
      forall r | r in sorted
        ensures r.0 != rows[i].0
      {
        var j :| 0 <= j < i && rows[j] == r;
      }
      InsertKeepsOrder(sorted, k, rows[i]);
      InsertKeepsRows(sorted, k, rows[i]);
      sorted := Inserted(sorted, k, rows[i]);
    }
  }

  function Inserted(sorted: seq<(nat, Node)>, k: nat, row: (nat, Node)): (after: seq<(nat, Node)>)
    requires k <= |sorted|
    ensures |after| == |sorted| + 1
    ensures forall j :: 0 <= j < |after| ==>
      after[j] == if j < k then sorted[j] else if j == k then row else sorted[j - 1]
  {
    sorted[..k] + [row] + sorted[k..]
  }

  lemma InsertKeepsOrder(sorted: seq<(nat, Node)>, k: nat, row: (nat, Node))
    requires ByLength(sorted) && k <= |sorted|
    requires k > 0 ==> |sorted[k - 1].1.path| <= |row.1.path|
    requires forall j :: k <= j < |sorted| ==> |sorted[j].1.path| > |row.1.path|
    ensures ByLength(Inserted(sorted, k, row))
  {
  }

  lemma InsertKeepsRows(sorted: seq<(nat, Node)>, k: nat, row: (nat, Node))
    requires NoRepeat(sorted) && k <= |sorted| && forall r :: r in sorted ==> r.0 != row.0
    ensures NoRepeat(Inserted(sorted, k, row))
    ensures forall r :: r in Inserted(sorted, k, row) <==> r in sorted || r == row
  {
    var after := Inserted(sorted, k, row);
    forall i | 0 <= i < |sorted|
      ensures sorted[i] in after
    {
      assert after[if i < k then i else i + 1] == sorted[i];
    }
    assert after[k] == row;
  }

  /** Sorted by path length, a role comes after its parent. */
  lemma ParentComesFirst(nodes: map<nat, Node>, rows: seq<(nat, Node)>, i: nat)
    requires IsTree(nodes) && ListsMap(rows, nodes) && ByLength(rows) && i < |rows| && rows[i].1.parent.Some?
    ensures exists j :: 0 <= j < i && rows[j].0 == rows[i].1.parent.value
  {
    assert rows[i] in rows;
    assert PathOk(nodes, rows[i].0);
    var p := rows[i].1.parent.value;
    assert (p, nodes[p]) in rows;
  }

  /** Every role comes after its parent, and once. */
  ghost predicate ParentsFirst(rows: seq<(nat, Node)>) {
    forall i :: 0 <= i < |rows| ==> Ready(rows, i)
  }

  ghost predicate Ready(rows: seq<(nat, Node)>, i: nat)
    requires i < |rows|
  {
    && rows[i].0 !in IdsOf(rows[..i])
    && (rows[i].1.parent.Some? ==> rows[i].1.parent.value in IdsOf(rows[..i]))
  }

  lemma ParentsComeFirst(nodes: map<nat, Node>, rows: seq<(nat, Node)>)
    requires IsTree(nodes) && ListsMap(rows, nodes) && ByLength(rows)
    ensures ParentsFirst(rows)
  {
    forall i | 0 <= i < |rows| && rows[i].1.parent.Some?
      ensures rows[i].1.parent.value in IdsOf(rows[..i])
    {
      ParentComesFirst(nodes, rows, i);
    }
  }

  // ── Building the copies ───────────────────────────────────────────────────

  function CopyOf(roleIds: Ids, n: Node): Node {
    Node(
      if n.parent.Some? && n.parent.value in roleIds then Some(roleIds[n.parent.value]) else None,
      n.number, n.path, n.parent.None? || n.isPublic)
  }

  ghost function IdsOf<V>(rows: seq<(nat, V)>): set<nat> { set r | r in rows :: r.0 }

  ghost predicate RowsCopied(roleIds: Ids, rows: seq<(nat, Node)>, copies: map<nat, Node>) {
    && Injective(roleIds)
    && roleIds.Keys == IdsOf(rows)
    && (forall r :: r in rows ==>
          r.0 in roleIds && roleIds[r.0] in copies && NodeCopied(roleIds, r.1, copies[roleIds[r.0]]))
    && (forall c :: c in copies ==> exists id :: id in roleIds && roleIds[id] == c)
  }

  lemma RowCopied(roleIds: Ids, rows: seq<(nat, Node)>, copies: map<nat, Node>, row: (nat, Node), id: nat)
    requires RowsCopied(roleIds, rows, copies) && row.0 !in roleIds && id !in copies
    requires row.1.parent.Some? ==> row.1.parent.value in roleIds
    ensures RowsCopied(roleIds[row.0 := id], rows + [row], copies[id := CopyOf(roleIds, row.1)])
  {
    var roleIds', rows', copies' := roleIds[row.0 := id], rows + [row], copies[id := CopyOf(roleIds, row.1)];
    IdsAppend(rows, row);
    forall r | r in rows'
      ensures r.0 in roleIds' && roleIds'[r.0] in copies' && NodeCopied(roleIds', r.1, copies'[roleIds'[r.0]])
    {
      OneCopied(roleIds, rows, copies, row, id, r);
    }
    StillInjective(roleIds, row.0, id, copies.Keys);
    StillOnto(roleIds, row.0, id, copies.Keys);
  }

  /** One more id, given to one more copy. */
  lemma StillInjective(ids: Ids, k0: nat, copy: nat, copies: set<nat>)
    requires Injective(ids) && ids.Values <= copies && copy !in copies
    ensures Injective(ids[k0 := copy])
  {
  }

  lemma StillOnto(ids: Ids, k0: nat, copy: nat, copies: set<nat>)
    requires k0 !in ids && forall c :: c in copies ==> exists k :: k in ids && ids[k] == c
    ensures var ids' := ids[k0 := copy]; forall c :: c in copies + {copy} ==> exists k :: k in ids' && ids'[k] == c
  {
    var ids' := ids[k0 := copy];
    forall c | c in copies + {copy}
      ensures exists k :: k in ids' && ids'[k] == c
    {
      if c == copy {
        assert ids'[k0] == c;
      } else {
        var k :| k in ids && ids[k] == c;
        assert ids'[k] == c;
      }
    }
  }

  lemma IdsAppend<V>(rows: seq<(nat, V)>, row: (nat, V))
    ensures IdsOf(rows + [row]) == IdsOf(rows) + {row.0}
  {
    assert row in rows + [row];
    assert forall r :: r in rows ==> r in rows + [row];
  }

  lemma OneCopied(roleIds: Ids, rows: seq<(nat, Node)>, copies: map<nat, Node>, row: (nat, Node), id: nat,
                  r: (nat, Node))
    requires RowsCopied(roleIds, rows, copies) && row.0 !in roleIds && id !in copies
    requires row.1.parent.Some? ==> row.1.parent.value in roleIds
    requires r in rows + [row]
    ensures var roleIds', copies' := roleIds[row.0 := id], copies[id := CopyOf(roleIds, row.1)];
      r.0 in roleIds' && roleIds'[r.0] in copies' && NodeCopied(roleIds', r.1, copies'[roleIds'[r.0]])
  {
    if r in rows {
      assert roleIds[r.0] in copies;
    }
  }

  lemma AllRowsCopied(roleIds: Ids, rows: seq<(nat, Node)>, nodes: map<nat, Node>, copies: map<nat, Node>)
    requires RowsCopied(roleIds, rows, copies) && ListsMap(rows, nodes)
    ensures NodesCopied(roleIds, nodes, copies)
  {
    forall id | id in nodes
      ensures (id, nodes[id]) in rows
    {
    }
  }

  lemma CourseCopied(courseIds: Ids, done: map<nat, Course>, copies: map<nat, Course>, id: nat, course: Course,
                     copy: nat)
    requires CoursesCopied(courseIds, done, copies) && id !in done && copy !in copies
    ensures CoursesCopied(courseIds[id := copy], done[id := course], copies[copy := CourseCopy(course)])
  {
    var ids, all := courseIds[id := copy], done[id := course];
    forall c | c in copies && c != copy
      ensures exists k :: k in all && ids[k] == c
    {
      var k :| k in done && courseIds[k] == c;
      assert ids[k] == c;
    }
    assert ids[id] == copy;
  }

  /** The exported people whose username exists here, and their profile. */
  function Found(people: map<nat, string>, profiles: map<string, nat>): Ids {
    map p | p in people && people[p] in profiles :: profiles[people[p]]
  }

  lemma FoundIsInjective(people: map<nat, string>, profiles: map<string, nat>)
    requires Injective(people) && Injective(profiles)
    ensures Injective(Found(people, profiles))
  {
  }

  function UsernameOf(rows: seq<(nat, string)>, person: nat): Option<string> {
    if rows == [] then None
    else if rows[0].0 == person then Some(rows[0].1)
    else UsernameOf(rows[1..], person)
  }

  lemma {:induction false} UsernameIsListed(rows: seq<(nat, string)>, people: map<nat, string>, person: nat)
    requires forall r :: r in rows ==> r.0 in people && people[r.0] == r.1
    ensures UsernameOf(rows, person) == if person in IdsOf(rows) then Some(people[person]) else None
  {
    if rows != [] {
      assert rows[0] in rows;
      assert forall r :: r in rows <==> r == rows[0] || r in rows[1..];
      UsernameIsListed(rows[1..], people, person);
    }
  }

  function InvitationFor(people: map<nat, string>, roleIds: Ids, s: Seat, g: Grant): Invitation
    requires s.0 in people && s.1 in roleIds
  {
    Invitation(people[s.0], roleIds[s.1], s.2, g.canCreateSubgroups, g.canAddCoOwners)
  }

  /** A pending invitation for every placement of somebody not found. */
  ghost function Awaiting(people: map<nat, string>, roleIds: Ids, personIds: Ids,
                          seats: map<Seat, Grant>): set<Invitation> {
    set s | s in seats && s.0 in people && s.0 !in personIds && s.1 in roleIds ::
      InvitationFor(people, roleIds, s, seats[s])
  }

  lemma SeatCopied(roleIds: Ids, personIds: Ids, seats: map<Seat, Grant>, copies: map<Seat, Grant>, s: Seat, g: Grant,
                   copy: Grant)
    requires Injective(roleIds) && Injective(personIds) && SeatsCopied(roleIds, personIds, seats, copies)
    requires s !in seats && Movable(roleIds, personIds, s) && GrantCopied(g, copy)
    ensures Moved(roleIds, personIds, s) !in copies
    ensures SeatsCopied(roleIds, personIds, seats[s := g], copies[Moved(roleIds, personIds, s) := copy])
  {
  }

  lemma SeatSkipped(people: map<nat, string>, roleIds: Ids, personIds: Ids, seats: map<Seat, Grant>,
                    copies: map<Seat, Grant>, s: Seat, g: Grant)
    requires SeatsCopied(roleIds, personIds, seats, copies) && s !in seats && s.0 !in personIds && s.0 in people
    requires s.1 in roleIds
    ensures SeatsCopied(roleIds, personIds, seats[s := g], copies)
    ensures Awaiting(people, roleIds, personIds, seats[s := g]) ==
      Awaiting(people, roleIds, personIds, seats) + {InvitationFor(people, roleIds, s, g)}
  {
    var all := Awaiting(people, roleIds, personIds, seats[s := g]);
    forall i | i in all
      ensures i in Awaiting(people, roleIds, personIds, seats) + {InvitationFor(people, roleIds, s, g)}
    {
      var t :| t in seats[s := g] && t.0 in people && t.0 !in personIds && t.1 in roleIds
        && i == InvitationFor(people, roleIds, t, seats[s := g][t]);
      assert t != s ==> t in seats;
    }
    assert s in seats[s := g];
    forall t | t in seats && t.0 in people && t.0 !in personIds && t.1 in roleIds
      ensures InvitationFor(people, roleIds, t, seats[t]) in all
    {
      assert t in seats[s := g];
    }
  }

  lemma NobodyMoreAwaited(people: map<nat, string>, roleIds: Ids, personIds: Ids, seats: map<Seat, Grant>, s: Seat,
                          g: Grant)
    requires s !in seats && s.0 in personIds
    ensures Awaiting(people, roleIds, personIds, seats[s := g]) == Awaiting(people, roleIds, personIds, seats)
  {
  }

  // ── Registrations ─────────────────────────────────────────────────────────

  function SeatFor(person: nat, i: Invitation): Seat { (person, i.role, i.kind) }

  predicate AsInvited(i: Invitation, g: Grant) {
    g.canCreateSubgroups == i.canCreateSubgroups && g.canAddCoOwners == i.canAddCoOwners && !g.canCreateContent
  }

  /** The invitations to one username. */
  function To(pending: set<Invitation>, username: string): set<Invitation> {
    set i | i in pending && i.username == username
  }

  ghost predicate Offered(invites: set<Invitation>, person: nat, t: Seat) {
    exists i :: i in invites && SeatFor(person, i) == t
  }

  /** The person holds the invited placements besides everything that was there. */
  ghost predicate Accepted(before: map<Seat, Grant>, after: map<Seat, Grant>, person: nat, invites: set<Invitation>) {
    && (forall t :: t in after <==> t in before || Offered(invites, person, t))
    && (forall t :: t in before ==> after[t] == before[t])
    && (forall t :: t in after && t !in before ==>
          exists i :: i in invites && SeatFor(person, i) == t && AsInvited(i, after[t]))
  }

  /** The placements of everybody found are restored and everybody else's are on offer. */
  ghost predicate Restored(org: Snapshot, roleIds: Ids, profiles: map<string, nat>, seats: map<Seat, Grant>,
                           pending: set<Invitation>) {
    && SeatsCopied(roleIds, Found(org.people, profiles), org.seats, seats)
    && pending == Awaiting(org.people, roleIds, Found(org.people, profiles), org.seats)
  }

  lemma PersonFound(people: map<nat, string>, profiles: map<string, nat>, username: string, id: nat, p: nat)
    requires Injective(people) && p in people && people[p] == username && username !in profiles
    ensures Found(people, profiles[username := id]) == Found(people, profiles)[p := id]
  {
  }

  lemma NobodyFound(people: map<nat, string>, profiles: map<string, nat>, username: string, id: nat)
    requires forall p :: p in people ==> people[p] != username
    ensures Found(people, profiles[username := id]) == Found(people, profiles)
  {
  }

  /** The invitations a newly found person leaves behind are exactly their own. */
  lemma NoLongerAwaited(people: map<nat, string>, roleIds: Ids, personIds: Ids, seats: map<Seat, Grant>, p: nat,
                        id: nat)
    requires Injective(people) && p in people && p !in personIds
    ensures Awaiting(people, roleIds, personIds[p := id], seats)
      == Awaiting(people, roleIds, personIds, seats) - To(Awaiting(people, roleIds, personIds, seats), people[p])
  {
    forall s | s in seats && s.0 in people && s.0 !in personIds && s.1 in roleIds
      ensures InvitationFor(people, roleIds, s, seats[s]).username == people[p] <==> s.0 == p
    {
    }
  }

  lemma InvitedSeat(people: map<nat, string>, roleIds: Ids, personIds: Ids, seats: map<Seat, Grant>, p: nat,
                    i: Invitation)
    returns (s: Seat)
    requires Injective(people) && p in people && i in To(Awaiting(people, roleIds, personIds, seats), people[p])
    ensures s in seats && s.0 == p && s.1 in roleIds && i == InvitationFor(people, roleIds, s, seats[s])
  {
    s :| s in seats && s.0 in people && s.0 !in personIds && s.1 in roleIds
      && i == InvitationFor(people, roleIds, s, seats[s]);
  }

  /** Accepting what was on offer to a person restores their placements. */
  lemma AcceptedIsCopied(org: Snapshot, roleIds: Ids, personIds: Ids, before: map<Seat, Grant>, after: map<Seat, Grant>,
                         p: nat, id: nat)
    requires org.Valid() && Injective(roleIds) && p in org.people && p !in personIds && id !in personIds.Values
    requires SeatsCopied(roleIds, personIds, org.seats, before)
    requires Accepted(before, after, id, To(Awaiting(org.people, roleIds, personIds, org.seats), org.people[p]))
    ensures SeatsCopied(roleIds, personIds[p := id], org.seats, after)
  {
    var ids := personIds[p := id];
    EverySeatMoved(org, roleIds, personIds, before, after, p, id);
    forall t | t in after
      ensures exists s :: s in org.seats && Movable(roleIds, ids, s) && Moved(roleIds, ids, s) == t
    {
      var s := AcceptedSeat(org, roleIds, personIds, before, after, p, id, t);
    }
  }

  lemma EverySeatMoved(org: Snapshot, roleIds: Ids, personIds: Ids, before: map<Seat, Grant>, after: map<Seat, Grant>,
                       p: nat, id: nat)
    requires org.Valid() && Injective(roleIds) && p in org.people && p !in personIds && id !in personIds.Values
    requires SeatsCopied(roleIds, personIds, org.seats, before)
    requires Accepted(before, after, id, To(Awaiting(org.people, roleIds, personIds, org.seats), org.people[p]))
    ensures var ids := personIds[p := id]; forall s :: s in org.seats && Movable(roleIds, ids, s) ==>
      Moved(roleIds, ids, s) in after && GrantCopied(org.seats[s], after[Moved(roleIds, ids, s)])
  {
    var ids := personIds[p := id];
    forall s | s in org.seats && Movable(roleIds, ids, s)
      ensures Moved(roleIds, ids, s) in after && GrantCopied(org.seats[s], after[Moved(roleIds, ids, s)])
    {
      if s.0 == p {
        OfferedSeat(org, roleIds, personIds, before, after, p, id, s);
      } else {
        HeldSeat(org.seats, roleIds, personIds, before, after, p, id, s);
      }
    }
  }

  /** A seat of somebody found earlier is where it was. */
  lemma HeldSeat(seats: map<Seat, Grant>, roleIds: Ids, personIds: Ids, before: map<Seat, Grant>,
                 after: map<Seat, Grant>, p: nat, id: nat, s: Seat)
    requires SeatsCopied(roleIds, personIds, seats, before) && s in seats && s.0 != p
    requires Movable(roleIds, personIds[p := id], s)
    requires forall t :: t in before ==> t in after && after[t] == before[t]
    ensures Moved(roleIds, personIds[p := id], s) in after
    ensures GrantCopied(seats[s], after[Moved(roleIds, personIds[p := id], s)])
  {
    assert Moved(roleIds, personIds[p := id], s) == Moved(roleIds, personIds, s);
  }

  lemma AcceptedSeat(org: Snapshot, roleIds: Ids, personIds: Ids, before: map<Seat, Grant>, after: map<Seat, Grant>,
                     p: nat, id: nat, t: Seat)
    returns (s: Seat)
    requires org.Valid() && p in org.people && p !in personIds && SeatsCopied(roleIds, personIds, org.seats, before)
    requires Accepted(before, after, id, To(Awaiting(org.people, roleIds, personIds, org.seats), org.people[p]))
    requires t in after
    ensures s in org.seats && Movable(roleIds, personIds[p := id], s) && Moved(roleIds, personIds[p := id], s) == t
  {
    if t in before {
      s :| s in org.seats && Movable(roleIds, personIds, s) && Moved(roleIds, personIds, s) == t;
    } else {
      var i :| i in To(Awaiting(org.people, roleIds, personIds, org.seats), org.people[p]) && SeatFor(id, i) == t
        && AsInvited(i, after[t]);
      s := InvitedSeat(org.people, roleIds, personIds, org.seats, p, i);
    }
  }

  lemma OfferedSeat(org: Snapshot, roleIds: Ids, personIds: Ids, before: map<Seat, Grant>, after: map<Seat, Grant>,
                    p: nat, id: nat, s: Seat)
    requires org.Valid() && Injective(roleIds) && p in org.people && p !in personIds && id !in personIds.Values
    requires SeatsCopied(roleIds, personIds, org.seats, before)
    requires Accepted(before, after, id, To(Awaiting(org.people, roleIds, personIds, org.seats), org.people[p]))
    requires s in org.seats && s.0 == p && s.1 in roleIds
    ensures (id, roleIds[s.1], s.2) in after && GrantCopied(org.seats[s], after[(id, roleIds[s.1], s.2)])
  {
    var t, invites := (id, roleIds[s.1], s.2), To(Awaiting(org.people, roleIds, personIds, org.seats), org.people[p]);
    var i := InvitationFor(org.people, roleIds, s, org.seats[s]);
    assert i in invites && SeatFor(id, i) == t;
    assert Offered(invites, id, t);
    forall r | r in org.seats && Movable(roleIds, personIds, r)
      ensures Moved(roleIds, personIds, r) != t
    {
      assert personIds[r.0] in personIds.Values;
    }
    var j :| j in invites && SeatFor(id, j) == t && AsInvited(j, after[t]);
    var r := InvitedSeat(org.people, roleIds, personIds, org.seats, p, j);
    assert r == s;
  }

  /** Every registration, of whomever, keeps the revived organization restored. */
  lemma RegistrationRestores(org: Snapshot, roleIds: Ids, profiles: map<string, nat>, seats: map<Seat, Grant>,
                             pending: set<Invitation>,
                             username: string, id: nat, after: map<Seat, Grant>)
    requires org.Valid() && Injective(roleIds) && Restored(org, roleIds, profiles, seats, pending)
    requires username !in profiles && id !in profiles.Values
    requires Accepted(seats, after, id, To(pending, username))
    ensures Restored(org, roleIds, profiles[username := id], after, pending - To(pending, username))
  {
    if p :| p in org.people && org.people[p] == username {
      PersonReturns(org, roleIds, profiles, seats, pending, id, after, p);
    } else {
      StrangerChangesNothing(org, roleIds, profiles, seats, pending, username, id, after);
    }
  }

  /** What a registration leaves of the whole copy. */
  lemma CopyGrows(org: Snapshot, roleIds: Ids, courseIds: Ids, now: int, profiles: map<string, nat>, copy: Snapshot,
                  pending: set<Invitation>, username: string, id: nat, after: map<Seat, Grant>)
    requires org.Valid() && Copied(org, roleIds, Found(org.people, profiles), courseIds, now, copy)
    requires pending == Awaiting(org.people, roleIds, Found(org.people, profiles), org.seats)
    requires Injective(profiles[username := id]) && username !in profiles && id !in profiles.Values
    requires Accepted(copy.seats, after, id, To(pending, username))
    ensures Copied(org, roleIds, Found(org.people, profiles[username := id]), courseIds, now, copy.(seats := after))
    ensures pending - To(pending, username) ==
      Awaiting(org.people, roleIds, Found(org.people, profiles[username := id]), org.seats)
  {
    RegistrationRestores(org, roleIds, profiles, copy.seats, pending, username, id, after);
    FoundIsInjective(org.people, profiles[username := id]);
  }

  lemma StrangerChangesNothing(org: Snapshot, roleIds: Ids, profiles: map<string, nat>, seats: map<Seat, Grant>,
                               pending: set<Invitation>,
                               username: string, id: nat, after: map<Seat, Grant>)
    requires Restored(org, roleIds, profiles, seats, pending) && forall p :: p in org.people ==>
      org.people[p] != username
    requires Accepted(seats, after, id, To(pending, username))
    ensures Restored(org, roleIds, profiles[username := id], after, pending - To(pending, username))
  {
    NobodyFound(org.people, profiles, username, id);
    NobodyInvited(org.people, roleIds, Found(org.people, profiles), org.seats, username);
    assert after == seats;
  }

  lemma PersonReturns(org: Snapshot, roleIds: Ids, profiles: map<string, nat>, seats: map<Seat, Grant>,
                      pending: set<Invitation>,
                      id: nat, after: map<Seat, Grant>, p: nat)
    requires org.Valid() && Injective(roleIds) && Restored(org, roleIds, profiles, seats, pending)
    requires p in org.people && org.people[p] !in profiles && id !in profiles.Values
    requires Accepted(seats, after, id, To(pending, org.people[p]))
    ensures Restored(org, roleIds, profiles[org.people[p] := id], after, pending - To(pending, org.people[p]))
  {
    var personIds := Found(org.people, profiles);
    PersonFound(org.people, profiles, org.people[p], id, p);
    NoLongerAwaited(org.people, roleIds, personIds, org.seats, p, id);
    AcceptedIsCopied(org, roleIds, personIds, seats, after, p, id);
  }

  lemma NobodyInvited(people: map<nat, string>, roleIds: Ids, personIds: Ids, seats: map<Seat, Grant>, username: string)
    requires forall p :: p in people ==> people[p] != username
    ensures To(Awaiting(people, roleIds, personIds, seats), username) == {}
  {
  }

  // ── The database ──────────────────────────────────────────────────────────

  /** The profiles, and the tables of the organization being revived. */
  class Database {
    var profiles: map<string, nat>
    var nextId: nat
    var nodes: map<nat, Node>
    var members: set<nat>
    var seats: map<Seat, Grant>
    var pending: set<Invitation>
    var courses: map<nat, Course>
    var placed: set<Placed>
    var prerequisites: set<(nat, nat)>

    /** Ids are never given twice. */
    ghost predicate Valid()
      reads this
    {
      && Injective(profiles)
      && (forall u :: u in profiles ==> profiles[u] < nextId)
      && (forall id :: id in nodes ==> id < nextId)
      && (forall id :: id in courses ==> id < nextId)
    }

    ghost function Snapshot(): Snapshot
      reads this
    {
      Revival.Snapshot(nodes, map[], seats, courses, placed, prerequisites)
    }

    method RestoreRoles(rows: seq<(nat, Node)>, ghost table: map<nat, Node>) returns (roleIds: Ids)
      requires Valid() && nodes == map[] && ListsMap(rows, table) && IsTree(table)
      modifies `nodes, `nextId
      ensures Valid() && NodesCopied(roleIds, table, nodes)
    {
      var sorted := SortByPath(rows);
      ParentsComeFirst(table, sorted);
      roleIds := CreateRoles(sorted);
      AllRowsCopied(roleIds, sorted, table, nodes);
    }

    method CreateRoles(rows: seq<(nat, Node)>) returns (roleIds: Ids)
      requires Valid() && nodes == map[] && ParentsFirst(rows)
      modifies `nodes, `nextId
      ensures Valid() && RowsCopied(roleIds, rows, nodes)
    {
      roleIds := map[];
      for i := 0 to |rows|
        invariant Valid() && RowsCopied(roleIds, rows[..i], nodes)
      {
        roleIds := CreateRole(roleIds, rows, i);
      }
      assert rows[..|rows|] == rows;
    }

    method CreateRole(roleIds: Ids, rows: seq<(nat, Node)>, i: nat) returns (ids: Ids)
      requires i < |rows| && Ready(rows, i) && Valid() && RowsCopied(roleIds, rows[..i], nodes)
      modifies `nodes, `nextId
      ensures Valid() && RowsCopied(ids, rows[..i + 1], nodes)
    {
      RowCopied(roleIds, rows[..i], nodes, rows[i], nextId);
      assert rows[..i + 1] == rows[..i] + [rows[i]];
      nodes := nodes[nextId := CopyOf(roleIds, rows[i].1)];
      ids := roleIds[rows[i].0 := nextId];
      nextId := nextId + 1;
    }

    method RestorePeople(rows: seq<(nat, string)>, ghost table: map<nat, string>) returns (personIds: Ids)
      requires ListsMap(rows, table)
      modifies `members
      ensures personIds == Found(table, profiles) && members == old(members) + personIds.Values
    {
      personIds := map[];
      for i := 0 to |rows|
        invariant forall p :: p in personIds <==> p in table && table[p] in profiles && (p, table[p]) in rows[..i]
        invariant forall p :: p in personIds ==> personIds[p] == profiles[table[p]]
        invariant members == old(members) + personIds.Values
      {
        var (id, username) := rows[i];
        assert rows[i] in rows;
        if username in profiles {
          NewValue(personIds, id, profiles[username]);
          members := members + {profiles[username]};
          personIds := personIds[id := profiles[username]];
        }
      }
      assert rows[..|rows|] == rows;
    }

    /** Placements of the people found, and invitations for the others. */
    method RestorePlacements(rows: seq<(Seat, Grant)>, people: seq<(nat, string)>, roleIds: Ids, personIds: Ids,
                             now: int,
                             ghost table: map<Seat, Grant>, ghost names: map<nat, string>)
      requires seats == map[] && pending == {}
      requires ListsMap(rows, table) && ListsMap(people, names) && forall s :: s in table ==>
        s.0 in names && s.1 in roleIds
      requires Injective(roleIds) && Injective(personIds) && personIds.Values <= members
      modifies `seats, `pending
      ensures SeatsCopied(roleIds, personIds, table, seats) && pending == Awaiting(names, roleIds, personIds, table)
    {
      ghost var done: map<Seat, Grant> := map[];
      for i := 0 to |rows|
        invariant Listed(rows[..i], done)
        invariant SeatsCopied(roleIds, personIds, done, seats) && pending == Awaiting(names, roleIds, personIds, done)
      {
        var (s, g) := rows[i];
        assert rows[i] in rows;
        NextListed(rows, i, done);
        RestorePlacement(s, g, people, roleIds, personIds, now, done, names);
        done := done[s := g];
      }
      AllListed(rows, table, done);
    }

    method RestorePlacement(s: Seat, g: Grant, people: seq<(nat, string)>, roleIds: Ids, personIds: Ids, now: int,
                            ghost done: map<Seat, Grant>, ghost names: map<nat, string>)
      requires ListsMap(people, names) && s.0 in names && s.1 in roleIds && s !in done
      requires Injective(roleIds) && Injective(personIds) && personIds.Values <= members
      requires SeatsCopied(roleIds, personIds, done, seats) && pending == Awaiting(names, roleIds, personIds, done)
      modifies `seats, `pending
      ensures SeatsCopied(roleIds, personIds, done[s := g], seats)
      ensures pending == Awaiting(names, roleIds, personIds, done[s := g])
    {
      if s.0 !in personIds {
        assert (s.0, names[s.0]) in people;
        UsernameIsListed(people, names, s.0);
        var username := UsernameOf(people, s.0);
        if username.Some? {
          SeatSkipped(names, roleIds, personIds, done, seats, s, g);
          pending := pending + {Invitation(username.value, roleIds[s.1], s.2, g.canCreateSubgroups, g.canAddCoOwners)};
        }
      } else {
        assert personIds[s.0] in members;
        var copy := Grant(g.canCreateSubgroups, g.canAddCoOwners, false, now);
        SeatCopied(roleIds, personIds, done, seats, s, g, copy);
        NobodyMoreAwaited(names, roleIds, personIds, done, s, g);
        seats := seats[Moved(roleIds, personIds, s) := copy];
      }
    }

    method RestoreCourses(rows: seq<(nat, Course)>, ghost table: map<nat, Course>) returns (courseIds: Ids)
      requires Valid() && courses == map[] && ListsMap(rows, table)
      modifies `courses, `nextId
      ensures Valid() && CoursesCopied(courseIds, table, courses)
    {
      courseIds := map[];
      ghost var done: map<nat, Course> := map[];
      for i := 0 to |rows|
        invariant Valid() && CoursesCopied(courseIds, done, courses)
        invariant Listed(rows[..i], done)
      {
        var (id, course) := rows[i];
        NextListed(rows, i, done);
        courseIds := CreateCourse(courseIds, id, course, done);
        done := done[id := course];
      }
      AllListed(rows, table, done);
    }

    method CreateCourse(courseIds: Ids, id: nat, course: Course, ghost done: map<nat, Course>) returns (ids: Ids)
      requires Valid() && CoursesCopied(courseIds, done, courses) && id !in done
      modifies `courses, `nextId
      ensures Valid() && CoursesCopied(ids, done[id := course], courses)
    {
      CourseCopied(courseIds, done, courses, id, course, nextId);
      courses := courses[nextId := CourseCopy(course)];
      ids := courseIds[id := nextId];
      nextId := nextId + 1;
    }

    method RestoreCoursePlacements(rows: seq<Placed>, courseIds: Ids, roleIds: Ids, now: int, ghost table: set<Placed>)
      requires placed == {} && Lists(rows, table)
      modifies `placed
      ensures placed == PlacedCopies(courseIds, roleIds, now, table)
    {
      for i := 0 to |rows|
        invariant placed == PlacedCopies(courseIds, roleIds, now, Elements(rows[..i]))
      {
        if rows[i].course in courseIds && rows[i].role in roleIds {
          placed := placed + {PlacedCopy(courseIds, roleIds, now, rows[i])};
        }
        OneMoreElement(rows, i);
      }
      assert rows[..|rows|] == rows;
      assert Elements(rows) == table;
    }

    method RestorePrerequisites(rows: seq<(nat, nat)>, courseIds: Ids, ghost table: set<(nat, nat)>)
      requires prerequisites == {} && Lists(rows, table)
      modifies `prerequisites
      ensures prerequisites == PrerequisiteCopies(courseIds, table)
    {
      for i := 0 to |rows|
        invariant prerequisites == PrerequisiteCopies(courseIds, Elements(rows[..i]))
      {
        if rows[i].0 in courseIds && rows[i].1 in courseIds {
          prerequisites := prerequisites + {(courseIds[rows[i].0], courseIds[rows[i].1])};
        }
        OneMoreElement(rows, i);
      }
      assert rows[..|rows|] == rows;
      assert Elements(rows) == table;
    }

    ghost predicate IsEmpty()
      reads this
    {
      nodes == map[] && members == {} && seats == map[] && pending == {} && courses == map[] && placed == {}
      && prerequisites == {}
    }

    /** What a revive leaves behind, and every later registration keeps. */
    ghost predicate IsRevived(org: Snapshot, roleIds: Ids, courseIds: Ids, now: int)
      reads this
    {
      && Valid()
      && Copied(org, roleIds, Found(org.people, profiles), courseIds, now, Snapshot())
      && pending == Awaiting(org.people, roleIds, Found(org.people, profiles), org.seats)
    }

    /** The revive transaction. */
    method Revive(payload: Payload, now: int, ghost org: Snapshot) returns (roleIds: Ids, courseIds: Ids)
      requires Valid() && IsEmpty() && org.Valid() && Exports(org, payload)
      modifies this
      ensures profiles == old(profiles) && IsRevived(org, roleIds, courseIds, now)
    {
      roleIds := RestoreRoles(payload.roles, org.nodes);
      var personIds := RestorePeople(payload.people, org.people);
      FoundIsInjective(org.people, profiles);
      RestorePlacements(payload.placements, payload.people, roleIds, personIds, now, org.seats, org.people);
      courseIds := RestoreCourses(payload.courses, org.courses);
      RestoreCoursePlacements(payload.coursePlacements, courseIds, roleIds, now, org.placed);
      RestorePrerequisites(payload.prerequisites, courseIds, org.prerequisites);
    }

    /** `placePerson`: membership and placement are created unless they exist. */
    method PlacePerson(person: nat, i: Invitation, now: int)
      modifies `members, `seats
      ensures members == old(members) + {person}
      ensures SeatFor(person, i) in old(seats) ==> seats == old(seats)
      ensures SeatFor(person, i) !in old(seats) ==>
        seats == old(seats)[SeatFor(person, i) := Grant(i.canCreateSubgroups, i.canAddCoOwners, false, now)]
    {
      members := members + {person};
      if (person, i.role, i.kind) !in seats {
        seats := seats[(person, i.role, i.kind) := Grant(i.canCreateSubgroups, i.canAddCoOwners, false, now)];
      }
    }

    /** One invitation becomes a placement and is gone. */
    method AcceptOne(person: nat, i: Invitation, now: int, ghost first: map<Seat, Grant>, ghost done: set<Invitation>)
      requires Accepted(first, seats, person, done)
      modifies `members, `seats, `pending
      ensures Accepted(first, seats, person, done + {i})
      ensures members == old(members) + {person} && pending == old(pending) - {i}
    {
      ghost var before := seats;
      PlacePerson(person, i, now);
      OneMoreAccepted(first, before, seats, person, done, i, now);
      pending := pending - {i};
    }

    /** `acceptPendingInvitations`, called right after registration. */
    method AcceptPendingInvitations(person: nat, username: string, now: int)
      modifies `members, `seats, `pending
      ensures pending == old(pending) - To(old(pending), username)
      ensures Accepted(old(seats), seats, person, To(old(pending), username))
      ensures members == old(members) + if To(old(pending), username) == {} then {} else {person}
    {
      var invites := To(pending, username);
      ghost var done: set<Invitation> := {};
      while invites != {}
        invariant invites + done == To(old(pending), username) && invites !! done
        invariant pending == old(pending) - done
        invariant Accepted(old(seats), seats, person, done)
        invariant members == old(members) + if done == {} then {} else {person}
        decreases |invites|
      {
        var i :| i in invites;
        AcceptOne(person, i, now, old(seats), done);
        invites := invites - {i};
        done := done + {i};
      }
    }

    method Register(username: string, now: int) returns (id: Option<nat>)
      requires Valid()
      modifies `profiles, `nextId, `members, `seats, `pending
      ensures Valid()
      ensures id.None? <==> username in old(profiles)
      ensures id.None? ==> profiles == old(profiles) && seats == old(seats) && pending == old(pending)
      ensures id.Some? ==>
        && id.value !in old(profiles).Values
        && profiles == old(profiles)[username := id.value]
        && pending == old(pending) - To(old(pending), username)
        && Accepted(old(seats), seats, id.value, To(old(pending), username))
    {
      if username in profiles {
        return None;
      }
      var person := nextId;
      nextId := nextId + 1;
      profiles := profiles[username := person];
      AcceptPendingInvitations(person, username, now);
      return Some(person);
    }

    method RegisterOne(username: string, later: int, ghost org: Snapshot, ghost roleIds: Ids, ghost courseIds: Ids,
                       ghost now: int)
      requires org.Valid() && IsRevived(org, roleIds, courseIds, now)
      modifies `profiles, `nextId, `members, `seats, `pending
      ensures IsRevived(org, roleIds, courseIds, now) && profiles.Keys == old(profiles).Keys + {username}
    {
      ghost var known, offered, before := profiles, pending, Snapshot();
      var id := Register(username, later);
      if id.Some? {
        CopyGrows(org, roleIds, courseIds, now, known, before, offered, username, id.value, seats);
        assert Snapshot() == before.(seats := seats);
      } else {
        assert Snapshot() == before;
      }
    }

    /**
     * Whoever registers, in whatever order: the revived organization stays a copy, and its people come back one by
     * one.
     */
    method RegisterAll(usernames: seq<string>, later: int, ghost org: Snapshot, ghost roleIds: Ids,
                       ghost courseIds: Ids, ghost now: int)
      requires org.Valid() && IsRevived(org, roleIds, courseIds, now)
      modifies `profiles, `nextId, `members, `seats, `pending
      ensures IsRevived(org, roleIds, courseIds, now)
      ensures profiles.Keys == old(profiles).Keys + Elements(usernames)
      ensures org.people.Values <= profiles.Keys ==>
        Found(org.people, profiles).Keys == org.people.Keys && pending == {}
      ensures org.people.Values <= profiles.Keys ==> SameReach(org, Found(org.people, profiles), courseIds, Snapshot())
    {
      for i := 0 to |usernames|
        invariant IsRevived(org, roleIds, courseIds, now)
        invariant profiles.Keys == old(profiles).Keys + Elements(usernames[..i])
      {
        RegisterOne(usernames[i], later, org, roleIds, courseIds, now);
        OneMoreElement(usernames, i);
      }
      assert usernames[..|usernames|] == usernames;
      if org.people.Values <= profiles.Keys {
        EverybodyFound(org.people, profiles, roleIds, org.seats);
        WholeReachIsRestored(org, roleIds, Found(org.people, profiles), courseIds, now, Snapshot());
      }
    }
  }

  lemma EverybodyFound(people: map<nat, string>, profiles: map<string, nat>, roleIds: Ids, seats: map<Seat, Grant>)
    requires people.Values <= profiles.Keys
    ensures Found(people, profiles).Keys == people.Keys
    ensures Awaiting(people, roleIds, Found(people, profiles), seats) == {}
  {
    forall p | p in people
      ensures p in Found(people, profiles)
    {
      assert people[p] in people.Values;
    }
  }

  lemma OneMoreAccepted(first: map<Seat, Grant>, before: map<Seat, Grant>, after: map<Seat, Grant>, person: nat,
                        done: set<Invitation>, i: Invitation, now: int)
    requires Accepted(first, before, person, done)
    requires after == if SeatFor(person, i) in before then before
      else before[SeatFor(person, i) := Grant(i.canCreateSubgroups, i.canAddCoOwners, false, now)]
    ensures Accepted(first, after, person, done + {i})
  {
    forall t
      ensures Offered(done + {i}, person, t) <==> Offered(done, person, t) || t == SeatFor(person, i)
    {
      assert i in done + {i};
      assert forall j :: j in done ==> j in done + {i};
    }
    forall t | t in after && t !in first
      ensures exists j :: j in done + {i} && SeatFor(person, j) == t && AsInvited(j, after[t])
    {
      if t in before {
        var j :| j in done && SeatFor(person, j) == t && AsInvited(j, before[t]);
        assert j in done + {i};
      } else {
        assert i in done + {i};
      }
    }
  }

  lemma NewValue(m: Ids, k: nat, v: nat)
    requires k !in m
    ensures m[k := v].Values == m.Values + {v}
  {
    assert m[k := v][k] == v;
    forall w | w in m.Values
      ensures w in m[k := v].Values
    {
      var j :| j in m && m[j] == w;
      assert m[k := v][j] == w;
    }
  }
}
