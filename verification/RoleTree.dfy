/** An organization's role tree: numbered roles with materialised paths, and the people placed on them. */
module RoleTree {
  import opened Bytes
  import opened Decimal
  import opened Policy

  const FIRST_ROLE_NUMBER := 100

  datatype Node = Node(parent: Option<nat>, number: nat, path: string, isPublic: bool)

  datatype Flags = Flags(canCreateSubgroups: bool, canAddCoOwners: bool)

  /** A placement's key: the person, the role and the kind. */
  type Seat = (nat, nat, Kind)

  // ── The tree ──────────────────────────────────────────────────────────────

  /** Every path is the parent's path, a dot and the node's own number; the root's is its number. */
  predicate PathOk(nodes: map<nat, Node>, id: nat)
    requires id in nodes
  {
    var n := nodes[id];
    match n.parent
    case None => n.path == Render(n.number)
    case Some(p) => p in nodes && n.path == nodes[p].path + "." + Render(n.number)
  }

  ghost predicate IsTree(nodes: map<nat, Node>) {
    && (forall id :: id in nodes ==> PathOk(nodes, id))
    && (forall a, b :: a in nodes && b in nodes && nodes[a].number == nodes[b].number ==> a == b)
  }

  /** `a` is `n` or above it, following parent links. */
  ghost predicate OnChain(nodes: map<nat, Node>, a: nat, n: nat)
    requires IsTree(nodes) && n in nodes
    decreases |nodes[n].path|
  {
    assert PathOk(nodes, n);
    a == n || (nodes[n].parent.Some? && OnChain(nodes, a, nodes[n].parent.value))
  }

  ghost predicate StrictlyAbove(nodes: map<nat, Node>, a: nat, n: nat)
    requires IsTree(nodes) && n in nodes
  {
    assert PathOk(nodes, n);
    nodes[n].parent.Some? && OnChain(nodes, a, nodes[n].parent.value)
  }

  lemma NoDots(n: nat)
    ensures '.' !in Render(n)
  {
    var s := Render(n);
    forall i | 0 <= i < |s|
      ensures s[i] != '.'
    {
      assert IsDigit(s[i]);
    }
  }

  /** The string test is the tree's own ancestry, both ways. */
  lemma {:induction false} PathsAreAncestry(nodes: map<nat, Node>, a: nat, n: nat)
    requires IsTree(nodes) && a in nodes && n in nodes
    ensures IsSelfOrAncestor(nodes[a].path, nodes[n].path) <==> OnChain(nodes, a, n)
    ensures IsStrictAncestor(nodes[a].path, nodes[n].path) <==> StrictlyAbove(nodes, a, n)
    decreases |nodes[n].path|
  {
    assert PathOk(nodes, n) && PathOk(nodes, a);
    NoDots(nodes[n].number);
    NoDots(nodes[a].number);
    match nodes[n].parent {
      case None =>
        RootHasNoAncestors(nodes[a].path, nodes[n].path);
        if nodes[a].path == nodes[n].path {
          SamePath(nodes, a, n);
        }
      case Some(p) =>
        ChildAncestors(nodes[a].path, nodes[p].path, Render(nodes[n].number));
        PathsAreAncestry(nodes, a, p);
        if nodes[a].path == nodes[n].path {
          SamePath(nodes, a, n);
        }
    }
  }

  lemma RootHasNoAncestors(a: string, n: string)
    requires '.' !in n
    ensures !StartsWith(n, a + ".")
  {
    if StartsWith(n, a + ".") {
      PrefixDot(a, n);
    }
  }

  /** A path ends in its node's number, so it names one node. */
  lemma SamePath(nodes: map<nat, Node>, a: nat, b: nat)
    requires IsTree(nodes) && a in nodes && b in nodes && nodes[a].path == nodes[b].path
    ensures a == b
  {
    assert PathOk(nodes, a) && PathOk(nodes, b);
    NoDots(nodes[a].number);
    NoDots(nodes[b].number);
    SameLabel(ParentPath(nodes, a), Render(nodes[a].number), ParentPath(nodes, b), Render(nodes[b].number));
    RenderInjective(nodes[a].number, nodes[b].number);
  }

  /** The text before a node's own number: empty for the root, the parent's path and a dot below it. */
  function ParentPath(nodes: map<nat, Node>, id: nat): (p: string)
    requires IsTree(nodes) && id in nodes
    ensures nodes[id].path == p + Render(nodes[id].number)
    ensures p == "" || p[|p| - 1] == '.'
  {
    assert PathOk(nodes, id);
    if nodes[id].parent.None? then "" else nodes[nodes[id].parent.value].path + "."
  }

  lemma SameLabel(p: string, x: string, q: string, y: string)
    requires p + x == q + y && '.' !in x && '.' !in y
    requires p == "" || p[|p| - 1] == '.'
    requires q == "" || q[|q| - 1] == '.'
    ensures x == y
  {
    var s := p + x;
    forall i | |p| <= i < |s|
      ensures s[i] != '.'
    {
      assert s[i] == x[i - |p|];
    }
    forall i | |q| <= i < |s|
      ensures s[i] != '.'
    {
      assert s[i] == y[i - |q|];
    }
    assert p != "" ==> s[|p| - 1] == '.';
    assert q != "" ==> s[|q| - 1] == '.';
    assert |p| == |q|;
    assert x == s[|p|..] && y == s[|q|..];
  }

  /** The root is the one role whose path has no dot. */
  lemma RootPath(nodes: map<nat, Node>, id: nat)
    requires IsTree(nodes) && id in nodes
    ensures IsRootRolePath(nodes[id].path) <==> nodes[id].parent.None?
  {
    assert PathOk(nodes, id);
    NoDots(nodes[id].number);
    if nodes[id].parent.Some? {
      assert nodes[id].path[|nodes[nodes[id].parent.value].path|] == '.';
    }
  }

  // ── Who may do what ───────────────────────────────────────────────────────

  function RefOf(nodes: map<nat, Node>, seats: map<Seat, Flags>, s: Seat): PlacementRef
    requires s in seats && s.1 in nodes
  {
    PlacementRef(s.1, nodes[s.1].path, s.2, seats[s].canCreateSubgroups, seats[s].canAddCoOwners)
  }

  /** The actor's placements as references. */
  function RefsOf(nodes: map<nat, Node>, seats: map<Seat, Flags>, person: nat): set<PlacementRef> {
    set s | s in seats && s.0 == person && s.1 in nodes :: RefOf(nodes, seats, s)
  }

  /** The same rules said with parent links instead of strings. */
  ghost predicate Authorized(nodes: map<nat, Node>, seats: map<Seat, Flags>, person: nat, action: Action, n: nat)
    requires IsTree(nodes) && n in nodes
  {
    match action
    case ManageFlags => exists a :: a in nodes && (person, a, Kind.Owner) in seats && StrictlyAbove(nodes, a, n)
    case DeleteRole => exists a :: a in nodes && (person, a, Kind.Owner) in seats && StrictlyAbove(nodes, a, n)
    case CreateSubRole =>
      exists a ::
        a in nodes && (person, a, Kind.Owner) in seats && OnChain(nodes, a, n)
        && seats[(person, a, Kind.Owner)].canCreateSubgroups
    case AddCoOwner =>
      exists a :: a in nodes && (person, a, Kind.Owner) in seats && OnChain(nodes, a, n)
        && (seats[(person, a, Kind.Owner)].canAddCoOwners || a != n)
    case SetVisibility =>
      nodes[n].parent.Some? && exists a :: a in nodes && (person, a, Kind.Owner) in seats && OnChain(nodes, a, n)
    case _ => exists a :: a in nodes && (person, a, Kind.Owner) in seats && OnChain(nodes, a, n)
  }

  /** The policy decides from strings exactly what the tree says. */
  lemma PolicyFollowsTree(nodes: map<nat, Node>, seats: map<Seat, Flags>, person: nat, action: Action, n: nat)
    requires IsTree(nodes) && n in nodes
    ensures Can(RefsOf(nodes, seats, person), action, nodes[n].path) <==> Authorized(nodes, seats, person, action, n)
  {
    RootPath(nodes, n);
    forall a | a in nodes
      ensures IsSelfOrAncestor(nodes[a].path, nodes[n].path) <==> OnChain(nodes, a, n)
      ensures IsStrictAncestor(nodes[a].path, nodes[n].path) <==> StrictlyAbove(nodes, a, n)
      ensures StrictlyAbove(nodes, a, n) <==> OnChain(nodes, a, n) && a != n
    {
      PathsAreAncestry(nodes, a, n);
      StrictMeansOther(nodes, a, n);
    }
    forall s | s in seats && s.0 == person && s.1 in nodes
      ensures RefOf(nodes, seats, s) in RefsOf(nodes, seats, person)
    {
    }
    var refs := RefsOf(nodes, seats, person);
    if Can(refs, action, nodes[n].path) {
      var p := Deciding(refs, action, nodes[n].path);
      var s :| s in seats && s.0 == person && s.1 in nodes && p == RefOf(nodes, seats, s);
      assert s == (person, s.1, Kind.Owner);
    }
    if Authorized(nodes, seats, person, action, n) {
      var a := DecidingRole(nodes, seats, person, action, n);
      var p := RefOf(nodes, seats, (person, a, Kind.Owner));
      assert p in refs;
      Decided(refs, p, action, nodes[n].path);
    }
  }

  /** What one owner placement must satisfy for an action. */
  predicate Decides(p: PlacementRef, action: Action, path: string) {
    && p.kind.Owner?
    && match action
       case ManageFlags => IsStrictAncestor(p.path, path)
       case DeleteRole => IsStrictAncestor(p.path, path)
       case CreateSubRole => IsSelfOrAncestor(p.path, path) && p.canCreateSubgroups
       case AddCoOwner => IsSelfOrAncestor(p.path, path) && (p.canAddCoOwners || IsStrictAncestor(p.path, path))
       case SetVisibility => IsSelfOrAncestor(p.path, path) && !IsRootRolePath(path)
       case _ => IsSelfOrAncestor(p.path, path)
  }

  lemma Deciding(refs: set<PlacementRef>, action: Action, path: string) returns (p: PlacementRef)
    requires Can(refs, action, path)
    ensures p in refs && Decides(p, action, path)
  {
    var governing := set p | p in refs && p.kind.Owner? && IsSelfOrAncestor(p.path, path);
    match action {
      case ManageFlags => p :| p in refs && p.kind.Owner? && IsStrictAncestor(p.path, path);
      case DeleteRole => p :| p in refs && p.kind.Owner? && IsStrictAncestor(p.path, path);
      case CreateSubRole => p :| p in governing && p.canCreateSubgroups;
      case AddCoOwner => p :| p in governing && (p.canAddCoOwners || IsStrictAncestor(p.path, path));
      case _ => p :| p in governing;
    }
  }

  lemma Decided(refs: set<PlacementRef>, p: PlacementRef, action: Action, path: string)
    requires p in refs && Decides(p, action, path)
    ensures Can(refs, action, path)
  {
    var governing := set p | p in refs && p.kind.Owner? && IsSelfOrAncestor(p.path, path);
    assert IsSelfOrAncestor(p.path, path) ==> p in governing;
  }

  predicate SomeDecides(refs: set<PlacementRef>, action: Action, path: string) {
    exists p :: p in refs && Decides(p, action, path)
  }

  /** The policy says yes exactly when one placement decides it. */
  lemma OneDecides(refs: set<PlacementRef>, action: Action, path: string)
    ensures Can(refs, action, path) <==> SomeDecides(refs, action, path)
  {
    if Can(refs, action, path) {
      var p := Deciding(refs, action, path);
    }
    if p :| p in refs && Decides(p, action, path) {
      Decided(refs, p, action, path);
    }
  }

  lemma DecidingRole(nodes: map<nat, Node>, seats: map<Seat, Flags>, person: nat, action: Action, n: nat)
    returns (a: nat)
    requires IsTree(nodes) && n in nodes && Authorized(nodes, seats, person, action, n)
    ensures a in nodes && (person, a, Kind.Owner) in seats
    ensures match action
      case ManageFlags => StrictlyAbove(nodes, a, n)
      case DeleteRole => StrictlyAbove(nodes, a, n)
      case CreateSubRole => OnChain(nodes, a, n) && seats[(person, a, Kind.Owner)].canCreateSubgroups
      case AddCoOwner => OnChain(nodes, a, n) && (seats[(person, a, Kind.Owner)].canAddCoOwners || a != n)
      case SetVisibility => nodes[n].parent.Some? && OnChain(nodes, a, n)
      case _ => OnChain(nodes, a, n)
  {
    match action {
      case ManageFlags => a :| a in nodes && (person, a, Kind.Owner) in seats && StrictlyAbove(nodes, a, n);
      case DeleteRole => a :| a in nodes && (person, a, Kind.Owner) in seats && StrictlyAbove(nodes, a, n);
      case CreateSubRole =>
        a :| a in nodes && (person, a, Kind.Owner) in seats && OnChain(nodes, a, n)
          && seats[(person, a, Kind.Owner)].canCreateSubgroups;
      case AddCoOwner =>
        a :| a in nodes && (person, a, Kind.Owner) in seats && OnChain(nodes, a, n)
          && (seats[(person, a, Kind.Owner)].canAddCoOwners || a != n);
      case _ => a :| a in nodes && (person, a, Kind.Owner) in seats && OnChain(nodes, a, n);
    }
  }

  /** Nothing is above itself. */
  lemma {:induction false} StrictMeansOther(nodes: map<nat, Node>, a: nat, n: nat)
    requires IsTree(nodes) && n in nodes
    ensures StrictlyAbove(nodes, a, n) <==> OnChain(nodes, a, n) && a != n
  {
    if StrictlyAbove(nodes, n, n) {
      assert PathOk(nodes, n);
      ChainShortens(nodes, n, nodes[n].parent.value);
    }
  }

  lemma {:induction false} ChainShortens(nodes: map<nat, Node>, a: nat, n: nat)
    requires IsTree(nodes) && n in nodes && OnChain(nodes, a, n)
    ensures a in nodes && |nodes[a].path| <= |nodes[n].path|
    decreases |nodes[n].path|
  {
    assert PathOk(nodes, n);
    if a != n {
      ChainShortens(nodes, a, nodes[n].parent.value);
    }
  }
}
