/** One organization's role and placement tables, and the routes that change them. */
module Organization {
  import opened Bytes
  import opened Decimal
  import opened Policy
  import opened RoleTree
  import opened Visibility

  datatype Refusal = NotFound | Forbidden | Conflict

  function OwnersOf(seats: map<Seat, Flags>, role: nat): set<nat> {
    set s | s in seats && s.1 == role && s.2.Owner? :: s.0
  }

  predicate HasChildren(nodes: map<nat, Node>, id: nat) { exists c :: c in nodes && nodes[c].parent == Some(id) }

  predicate HasOccupants(seats: map<Seat, Flags>, id: nat) { exists s :: s in seats && s.1 == id }

  /**
   * What every operation keeps: paths follow parent links, numbers are unique and below the counter
   * with every number ever given, there is one root, and the root has an owner.
   */
  ghost predicate OrgOk(nodes: map<nat, Node>, next: nat, seats: map<Seat, Flags>, root: nat, given: set<nat>) {
    && TreeOk(nodes, next, root, given)
    && (forall s :: s in seats ==> s.1 in nodes)
    && OwnersOf(seats, root) != {}
  }

  ghost predicate TreeOk(nodes: map<nat, Node>, next: nat, root: nat, given: set<nat>) {
    && IsTree(nodes)
    && (forall id :: id in nodes ==> nodes[id].number in given)
    && (forall k :: k in given ==> FIRST_ROLE_NUMBER <= k < next)
    && root in nodes && (forall id :: id in nodes ==> (nodes[id].parent.None? <==> id == root))
  }

  function ChildOf(nodes: map<nat, Node>, parent: nat, number: nat, isPublic: bool): Node
    requires parent in nodes
  {
    Node(Some(parent), number, nodes[parent].path + "." + Render(number), isPublic)
  }

  /** A new role hangs below its parent, hidden or public as was asked, and keeps one tree with a number never given. */
  lemma ChildKeeps(nodes: map<nat, Node>, next: nat, root: nat, given: set<nat>, id: nat, parent: nat, isPublic: bool)
    requires TreeOk(nodes, next, root, given) && parent in nodes && id !in nodes
    ensures TreeOk(nodes[id := ChildOf(nodes, parent, next, isPublic)], next + 1, root, given + {next})
    ensures next !in given
    ensures var child := ChildOf(nodes, parent, next, isPublic);
      (child.parent, child.number, child.isPublic) == (Some(parent), next, isPublic)
  {
    var nodes' := nodes[id := ChildOf(nodes, parent, next, isPublic)];
    ChildPaths(nodes, nodes', id, parent, next, isPublic);
    assert forall n :: n in nodes && n != id ==> nodes'[n] == nodes[n];
  }

  lemma ChildPaths(nodes: map<nat, Node>, nodes': map<nat, Node>, id: nat, parent: nat, number: nat, isPublic: bool)
    requires IsTree(nodes) && parent in nodes && id !in nodes && forall n :: n in nodes ==> nodes[n].number != number
    requires nodes' == nodes[id := ChildOf(nodes, parent, number, isPublic)]
    ensures IsTree(nodes')
  {
    forall n | n in nodes'
      ensures PathOk(nodes', n)
    {
      assert n != id ==> PathOk(nodes, n);
    }
  }

  lemma ChildKeepsOrg(nodes: map<nat, Node>, next: nat, seats: map<Seat, Flags>, root: nat, given: set<nat>, id: nat,
                      parent: nat, isPublic: bool)
    requires OrgOk(nodes, next, seats, root, given) && parent in nodes && id !in nodes
    ensures OrgOk(nodes[id := ChildOf(nodes, parent, next, isPublic)], next + 1, seats, root, given + {next})
    ensures next !in given
  {
    ChildKeeps(nodes, next, root, given, id, parent, isPublic);
  }

  lemma DeleteKeeps(nodes: map<nat, Node>, next: nat, root: nat, given: set<nat>, id: nat)
    requires TreeOk(nodes, next, root, given) && id in nodes && id != root && !HasChildren(nodes, id)
    ensures TreeOk(nodes - {id}, next, root, given)
  {
    forall n | n in nodes - {id}
      ensures PathOk(nodes - {id}, n)
    {
      assert PathOk(nodes, n);
    }
  }

  /** Changing who may see a role changes nothing about the tree. */
  lemma RelabelKeeps(nodes: map<nat, Node>, nodes': map<nat, Node>, next: nat, root: nat, given: set<nat>)
    requires TreeOk(nodes, next, root, given) && nodes'.Keys == nodes.Keys
    requires forall id :: id in nodes ==> nodes'[id] == nodes[id].(isPublic := nodes'[id].isPublic)
    ensures TreeOk(nodes', next, root, given)
  {
    forall n | n in nodes'
      ensures PathOk(nodes', n)
    {
      assert PathOk(nodes, n);
    }
  }

  lemma SwitchKeeps(nodes: map<nat, Node>, next: nat, seats: map<Seat, Flags>, root: nat, given: set<nat>, role: nat,
                    isPublic: bool)
    requires OrgOk(nodes, next, seats, root, given) && role in nodes
    ensures OrgOk(nodes[role := nodes[role].(isPublic := isPublic)], next, seats, root, given)
  {
    RelabelKeeps(nodes, nodes[role := nodes[role].(isPublic := isPublic)], next, root, given);
  }

  lemma UnhideKeeps(nodes: map<nat, Node>, next: nat, seats: map<Seat, Flags>, root: nat, given: set<nat>, role: nat)
    requires OrgOk(nodes, next, seats, root, given) && role in nodes
    ensures OrgOk(Unhide(nodes, role), next, seats, root, given)
  {
    RelabelKeeps(nodes, Unhide(nodes, role), next, root, given);
  }

  /** Nobody sits above the root. */
  lemma RootIsTop(nodes: map<nat, Node>, seats: map<Seat, Flags>, actor: nat, id: nat)
    requires IsTree(nodes) && id in nodes && nodes[id].parent.None?
    ensures !Authorized(nodes, seats, actor, Action.DeleteRole, id)
  {
  }

  /** Who governs the role may remove its members; removing an owner takes co-owner rights and another owner. */
  ghost predicate Removable(nodes: map<nat, Node>, seats: map<Seat, Flags>, actor: nat, role: nat, kind: Kind)
    requires IsTree(nodes) && role in nodes
  {
    && Authorized(nodes, seats, actor, AddPeople, role)
    && (kind.Owner? ==> Authorized(nodes, seats, actor, AddCoOwner, role) && |OwnersOf(seats, role)| > 1)
  }

  class Org {
    var nodes: map<nat, Node>
    var nextRoleNumber: nat
    var seats: map<Seat, Flags>
    /** The root role, and every role number ever given out. */
    ghost var root: nat
    ghost var given: set<nat>

    ghost predicate Valid()
      reads this
    {
      OrgOk(nodes, nextRoleNumber, seats, root, given)
    }

    /** The creation transaction: the root role, and its founder as owner with every delegation. */
    constructor (founder: nat, rootId: nat)
      ensures Valid() && root == rootId && given == {FIRST_ROLE_NUMBER}
      ensures nodes == map[rootId := Node(None, FIRST_ROLE_NUMBER, Render(FIRST_ROLE_NUMBER), true)]
      ensures seats == map[(founder, rootId, Kind.Owner) := Flags(true, true)]
    {
      nodes := map[rootId := Node(None, FIRST_ROLE_NUMBER, Render(FIRST_ROLE_NUMBER), true)];
      nextRoleNumber := FIRST_ROLE_NUMBER + 1;
      seats := map[(founder, rootId, Kind.Owner) := Flags(true, true)];
      root, given := rootId, {FIRST_ROLE_NUMBER};
      new;
      assert (founder, rootId, Kind.Owner) in seats;
      assert founder in OwnersOf(seats, root);
    }

    /** What the policy answers for one role: exactly what the tree says. */
    method Allowed(actor: nat, action: Action, role: nat) returns (ok: bool)
      requires IsTree(nodes) && role in nodes
      ensures ok <==> Authorized(nodes, seats, actor, action, role)
    {
      PolicyFollowsTree(nodes, seats, actor, action, role);
      ok := Can(RefsOf(nodes, seats, actor), action, nodes[role].path);
    }

    method CreateChild(actor: nat, parent: nat, id: nat, isPublic: bool) returns (r: Result<nat, Refusal>)
      requires Valid() && id !in nodes
      modifies this
      ensures Valid() && root == old(root) && seats == old(seats)
      ensures r.Ok? <==> old(parent in nodes && Authorized(nodes, seats, actor, CreateSubRole, parent))
      ensures r.Ok? ==>
        && r.value == old(nextRoleNumber) && r.value !in old(given) && given == old(given) + {r.value}
        && nodes == old(nodes)[id := ChildOf(old(nodes), parent, r.value, isPublic)]
      ensures r.Err? ==> nodes == old(nodes) && given == old(given) && nextRoleNumber == old(nextRoleNumber)
      ensures r.Err? ==> r.error == if parent in nodes then Forbidden else NotFound
    {
      if parent !in nodes {
        return Err(NotFound);
      }
      var ok := Allowed(actor, CreateSubRole, parent);
      if !ok {
        return Err(Forbidden);
      }
      var number := AddChild(parent, id, isPublic);
      return Ok(number);
    }

    /** Takes the next number and hangs the new role below its parent. */
    method AddChild(parent: nat, id: nat, isPublic: bool) returns (number: nat)
      requires Valid() && parent in nodes && id !in nodes
      modifies `nodes, `nextRoleNumber, `given
      ensures Valid() && root == old(root)
      ensures number == old(nextRoleNumber) && number !in old(given) && given == old(given) + {number}
      ensures nodes == old(nodes)[id := ChildOf(old(nodes), parent, number, isPublic)]
    {
      number := nextRoleNumber;
      var tree := nodes[id := ChildOf(nodes, parent, number, isPublic)];
      ChildKeepsOrg(nodes, number, seats, root, given, id, parent, isPublic);
      nextRoleNumber, nodes, given := number + 1, tree, given + {number};
    }

    /** Direct deletion and an approved deletion request apply the same rule. */
    method DeleteRole(actor: nat, id: nat) returns (r: Result<(), Refusal>)
      requires Valid()
      modifies `nodes
      ensures Valid()
      ensures r.Ok? <==> old(id in nodes && Authorized(nodes, seats, actor, Action.DeleteRole, id)
        && !HasChildren(nodes, id) && !HasOccupants(seats, id))
      ensures nodes == if r.Ok? then old(nodes) - {id} else old(nodes)
      ensures r == Err(NotFound) <==> id !in old(nodes)
      ensures r == Err(Forbidden) <==>
        id in nodes && id != root && !Authorized(nodes, seats, actor, Action.DeleteRole, id)
    {
      if id !in nodes {
        return Err(NotFound);
      }
      if nodes[id].parent.None? {
        RootIsTop(nodes, seats, actor, id);
        return Err(Conflict);
      }
      var ok := Allowed(actor, Action.DeleteRole, id);
      if !ok {
        return Err(Forbidden);
      }
      if HasChildren(nodes, id) || HasOccupants(seats, id) {
        return Err(Conflict);
      }
      DeleteKeeps(nodes, nextRoleNumber, root, given, id);
      nodes := nodes - {id};
      return Ok(());
    }

    /** `placePerson`: an existing seat keeps its flags. */
    method Place(person: nat, role: nat, kind: Kind, flags: Flags)
      requires Valid() && role in nodes
      modifies `seats
      ensures Valid()
      ensures seats ==
        if (person, role, kind) in old(seats) then old(seats) else old(seats)[(person, role, kind) := flags]
    {
      ghost var owner :| owner in OwnersOf(seats, root);
      if (person, role, kind) !in seats {
        seats := seats[(person, role, kind) := flags];
      }
      assert (owner, root, Kind.Owner) in seats;
      assert owner in OwnersOf(seats, root);
    }

    /** Removing a person from a role: a role's last owner stays. */
    method RemovePerson(actor: nat, role: nat, person: nat) returns (r: Result<Kind, Refusal>)
      requires Valid()
      modifies `seats
      ensures Valid()
      ensures r.Ok? ==>
        && role in nodes && (person, role, r.value) in old(seats) && seats == old(seats) - {(person, role, r.value)}
        && Removable(nodes, old(seats), actor, role, r.value)
      ensures r.Err? ==> seats == old(seats)
      ensures r.Err? ==> role in nodes ==>
        forall kind | (person, role, kind) in seats ::
          exists k :: (person, role, k) in seats && !Removable(nodes, seats, actor, role, k)
      ensures forall x: nat :: OwnersOf(old(seats), x) != {} ==> OwnersOf(seats, x) != {}
    {
      if role !in nodes {
        return Err(NotFound);
      }
      var ok := Allowed(actor, AddPeople, role);
      if !ok {
        return Err(Forbidden);
      }
      if (person, role, Kind.Owner) !in seats && (person, role, Kind.Member) !in seats {
        return Err(NotFound);
      }
      var kind :| (person, role, kind) in seats;
      if kind.Owner? {
        ok := Allowed(actor, AddCoOwner, role);
        if !ok {
          return Err(Forbidden);
        }
        if |OwnersOf(seats, role)| <= 1 {
          return Err(Conflict);
        }
      }
      OwnersLeft(seats, (person, role, kind));
      seats := seats - {(person, role, kind)};
      return Ok(kind);
    }

    /** Removing a co-owner of the organization itself. */
    method RemoveOwner(person: nat) returns (r: Result<(), Refusal>)
      requires Valid()
      modifies `seats
      ensures Valid()
      ensures r.Ok? <==> old(person in OwnersOf(seats, root) && |OwnersOf(seats, root)| > 1)
      ensures seats == if r.Ok? then old(seats) - {(person, root, Kind.Owner)} else old(seats)
      ensures forall x: nat :: OwnersOf(old(seats), x) != {} ==> OwnersOf(seats, x) != {}
    {
      var ownerRole :| ownerRole in nodes && nodes[ownerRole].parent.None?;
      var owners := OwnersOf(seats, ownerRole);
      if person !in owners {
        return Err(NotFound);
      }
      if |owners| <= 1 {
        return Err(Conflict);
      }
      OwnersLeft(seats, (person, ownerRole, Kind.Owner));
      seats := seats - {(person, ownerRole, Kind.Owner)};
      return Ok(());
    }

    /** The visibility switch of one branch. */
    method SetVisibility(actor: nat, role: nat, isPublic: bool) returns (r: Result<(), Refusal>)
      requires Valid()
      modifies `nodes
      ensures Valid()
      ensures r.Ok? <==> old(role in nodes && Authorized(nodes, seats, actor, Action.SetVisibility, role))
      ensures nodes == if r.Ok? then old(nodes)[role := old(nodes)[role].(isPublic := isPublic)] else old(nodes)
    {
      if role !in nodes {
        return Err(NotFound);
      }
      if nodes[role].parent.None? {
        return Err(Conflict);
      }
      var ok := Allowed(actor, Action.SetVisibility, role);
      if !ok {
        return Err(Forbidden);
      }
      SwitchKeeps(nodes, nextRoleNumber, seats, root, given, role, isPublic);
      nodes := nodes[role := nodes[role].(isPublic := isPublic)];
      return Ok(());
    }

    /** Approving a visibility request: exactly whoever governs the topmost level that hides the branch may. */
    method ApproveVisibility(actor: nat, role: nat) returns (r: Result<(), Refusal>)
      requires Valid()
      modifies `nodes
      ensures Valid()
      ensures r.Ok? ==> role in old(nodes) && nodes == Unhide(old(nodes), role) && EffectivePublic(nodes, role)
      ensures r.Err? ==> nodes == old(nodes)
      ensures role in old(nodes) ==>
        forall g | g in old(nodes) && IsGate(old(nodes), role, g) ::
          r.Ok? <==> Authorized(old(nodes), seats, actor, AddPeople, g)
      ensures forall person :: Slice(old(nodes), seats, person) <= Slice(nodes, seats, person)
    {
      if role !in nodes {
        return Err(NotFound);
      }
      var gate := GateOf(nodes, role);
      var ok := Allowed(actor, AddPeople, gate);
      if !ok {
        return Err(Forbidden);
      }
      Open(role);
      return Ok(());
    }

    method Open(role: nat)
      requires Valid() && role in nodes
      modifies `nodes
      ensures Valid() && nodes == Unhide(old(nodes), role) && EffectivePublic(nodes, role)
      ensures forall person :: Slice(old(nodes), seats, person) <= Slice(nodes, seats, person)
    {
      UnhideKeeps(nodes, nextRoleNumber, seats, root, given, role);
      ApprovalOpens(nodes, seats, role);
      nodes := Unhide(nodes, role);
    }
  }

  /** Taking one seat away leaves every role with an owner that had one, if it was not a last owner's. */
  lemma OwnersLeft(seats: map<Seat, Flags>, s: Seat)
    requires s in seats && (s.2.Owner? ==> |OwnersOf(seats, s.1)| > 1)
    ensures forall x: nat :: OwnersOf(seats, x) != {} ==> OwnersOf(seats - {s}, x) != {}
  {
    forall x: nat | OwnersOf(seats, x) != {}
      ensures OwnersOf(seats - {s}, x) != {}
    {
      var owner :| owner in OwnersOf(seats, x);
      if (owner, x, Kind.Owner) == s {
        owner := AnotherOwner(OwnersOf(seats, x), owner);
      }
      assert (owner, x, Kind.Owner) in seats - {s};
      assert owner in OwnersOf(seats - {s}, x);
    }
  }

  lemma AnotherOwner(owners: set<nat>, owner: nat) returns (other: nat)
    requires owner in owners && |owners| > 1
    ensures other in owners && other != owner
  {
    assert |owners - {owner}| == |owners| - 1;
    other :| other in owners - {owner};
  }
}
