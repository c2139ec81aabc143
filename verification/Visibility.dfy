/** Hidden branches: hiding inherits down the tree, and a person sees a parent-closed slice of it. */
module Visibility {
  import opened Bytes
  import opened Policy
  import opened RoleTree

  /** The levels that keep a node effectively hidden: hidden strict ancestors, the root excepted. */
  function HiddenAbove(nodes: map<nat, Node>, path: string): set<nat> {
    set a | a in nodes && nodes[a].parent.Some? && !nodes[a].isPublic && IsStrictAncestor(nodes[a].path, path)
  }

  /** What `hiddenChainAbove` returns: those levels, topmost first. */
  ghost predicate IsHiddenChain(nodes: map<nat, Node>, path: string, chain: seq<nat>) {
    && (forall a :: a in chain <==> a in HiddenAbove(nodes, path))
    && forall i, j :: 0 <= i < j < |chain| ==>
      chain[i] in nodes && chain[j] in nodes && |nodes[chain[i]].path| < |nodes[chain[j]].path|
  }

  function ByPath(nodes: map<nat, Node>, path: string): set<nat> { set id | id in nodes && nodes[id].path == path }

  /** `hiddenAncestorOf`: the prefixes of the path that end at a separator, shortest first. */
  method HiddenAncestorOf(nodes: map<nat, Node>, n: nat) returns (r: Option<nat>)
    requires IsTree(nodes) && n in nodes
    ensures r.None? <==> HiddenAbove(nodes, nodes[n].path) == {}
    ensures r.Some? ==>
      && r.value in HiddenAbove(nodes, nodes[n].path)
      && forall a :: a in HiddenAbove(nodes, nodes[n].path) ==> |nodes[r.value].path| <= |nodes[a].path|
  {
    var path := nodes[n].path;
    var k := 0;
    while k < |path|
      invariant 0 <= k <= |path| && NoneShorter(nodes, path, k)
    {
      if path[k] == '.' {
        var anc := HiddenAt(nodes, path, k);
        if anc.Some? {
          return anc;
        }
      }
      NoneHere(nodes, path, k);
      k := k + 1;
    }
    NoneLonger(nodes, path);
    return None;
  }

  /** The role a prefix of the path names, when it hides what is below it. */
  method HiddenAt(nodes: map<nat, Node>, path: string, k: nat) returns (r: Option<nat>)
    requires IsTree(nodes) && k < |path| && path[k] == '.'
    ensures r.Some? ==> r.value in HiddenAbove(nodes, path) && |nodes[r.value].path| == k
    ensures r.None? ==> forall a :: a in HiddenAbove(nodes, path) ==> nodes[a].path != path[..k]
  {
    var found := ByPath(nodes, path[..k]);
    forall a | a in HiddenAbove(nodes, path) && nodes[a].path == path[..k]
      ensures a in found
    {
    }
    if found == {} {
      return None;
    }
    var anc :| anc in found;
    forall a | a in found
      ensures a == anc
    {
      SamePath(nodes, a, anc);
    }
    if nodes[anc].parent.Some? && !nodes[anc].isPublic {
      assert path[..k + 1] == nodes[anc].path + ".";
      return Some(anc);
    }
    return None;
  }

  /** No level shorter than `k` hides the path. */
  ghost predicate NoneShorter(nodes: map<nat, Node>, path: string, k: nat) {
    forall a :: a in HiddenAbove(nodes, path) ==> k <= |nodes[a].path|
  }

  lemma NoneHere(nodes: map<nat, Node>, path: string, k: nat)
    requires IsTree(nodes) && k < |path| && NoneShorter(nodes, path, k)
    requires path[k] == '.' ==> forall a :: a in HiddenAbove(nodes, path) ==> nodes[a].path != path[..k]
    ensures NoneShorter(nodes, path, k + 1)
  {
    forall a | a in HiddenAbove(nodes, path)
      ensures |nodes[a].path| < |path| && path[|nodes[a].path|] == '.' && path[..|nodes[a].path|] == nodes[a].path
    {
      AncestorEnds(nodes[a].path, path);
    }
  }

  lemma AncestorEnds(a: string, path: string)
    requires IsStrictAncestor(a, path)
    ensures |a| < |path| && path[|a|] == '.' && path[..|a|] == a
  {
    PrefixDot(a, path);
    assert path[..|a| + 1][..|a|] == path[..|a|];
  }

  lemma NoneLonger(nodes: map<nat, Node>, path: string)
    requires NoneShorter(nodes, path, |path|)
    ensures HiddenAbove(nodes, path) == {}
  {
    forall a | a in nodes && IsStrictAncestor(nodes[a].path, path)
      ensures |nodes[a].path| < |path|
    {
      PrefixDot(nodes[a].path, path);
    }
  }

  lemma HeadIsShortest(nodes: map<nat, Node>, path: string, chain: seq<nat>, a: nat)
    requires IsHiddenChain(nodes, path, chain) && a in HiddenAbove(nodes, path)
    ensures chain != [] && chain[0] in HiddenAbove(nodes, path) && |nodes[chain[0]].path| <= |nodes[a].path|
  {
    assert a in chain;
    assert chain[0] in HiddenAbove(nodes, path);
    var i :| 0 <= i < |chain| && chain[i] == a;
  }

  /** The two computations of "what hides this branch" name the same level. */
  lemma FirstOfChain(nodes: map<nat, Node>, path: string, chain: seq<nat>, first: nat)
    requires IsTree(nodes) && IsHiddenChain(nodes, path, chain)
    requires first in HiddenAbove(nodes, path)
    requires forall a :: a in HiddenAbove(nodes, path) ==> |nodes[first].path| <= |nodes[a].path|
    ensures chain != [] && chain[0] == first
  {
    HeadIsShortest(nodes, path, chain, first);
    assert path[..|nodes[first].path|] == nodes[first].path;
    assert path[..|nodes[chain[0]].path|] == nodes[chain[0]].path;
    SamePath(nodes, chain[0], first);
  }

  // ── What a person sees ────────────────────────────────────────────────────

  predicate EffectivePublic(nodes: map<nat, Node>, n: nat)
    requires n in nodes
  {
    nodes[n].isPublic && HiddenAbove(nodes, nodes[n].path) == {}
  }

  function Occupied(nodes: map<nat, Node>, seats: map<Seat, Flags>, person: nat): set<nat> {
    set s | s in seats && s.0 == person && s.1 in nodes :: s.1
  }

  function Owned(nodes: map<nat, Node>, seats: map<Seat, Flags>, person: nat): set<nat> {
    set s | s in seats && s.0 == person && s.2.Owner? && s.1 in nodes :: s.1
  }

  predicate Visible(nodes: map<nat, Node>, seats: map<Seat, Flags>, person: nat, n: nat)
    requires n in nodes
  {
    var path := nodes[n].path;
    || (exists o :: o in Owned(nodes, seats, person) && IsSelfOrAncestor(nodes[o].path, path))
    || (exists o :: o in Occupied(nodes, seats, person) && nodes[o].path == path)
    || (exists o :: o in Occupied(nodes, seats, person) && IsSelfOrAncestor(path, nodes[o].path))
    || (exists m :: m in nodes && EffectivePublic(nodes, m) && IsSelfOrAncestor(path, nodes[m].path))
  }

  /** The structure slice: every role the person may see. */
  function Slice(nodes: map<nat, Node>, seats: map<Seat, Flags>, person: nat): set<nat> {
    set n | n in nodes && Visible(nodes, seats, person, n)
  }

  /** The slice can be drawn as a tree: with every role it holds the role above. */
  lemma SliceIsParentClosed(nodes: map<nat, Node>, seats: map<Seat, Flags>, person: nat, n: nat)
    requires IsTree(nodes) && n in Slice(nodes, seats, person) && nodes[n].parent.Some?
    ensures PathOk(nodes, n) && nodes[n].parent.value in Slice(nodes, seats, person)
  {
    assert PathOk(nodes, n);
    var p := nodes[n].parent.value;
    NoDots(nodes[n].number);
    ChildAncestors(nodes[p].path, nodes[p].path, Decimal.Render(nodes[n].number));
    if o :| o in Owned(nodes, seats, person) && IsSelfOrAncestor(nodes[o].path, nodes[n].path) {
      ChildAncestors(nodes[o].path, nodes[p].path, Decimal.Render(nodes[n].number));
      assert o in Occupied(nodes, seats, person);
    } else if o :| o in Occupied(nodes, seats, person) && nodes[o].path == nodes[n].path {
      assert IsSelfOrAncestor(nodes[p].path, nodes[o].path);
    } else if o :| o in Occupied(nodes, seats, person) && IsSelfOrAncestor(nodes[n].path, nodes[o].path) {
      AncestryTransitive(nodes[p].path, nodes[n].path, nodes[o].path);
    } else {
      var m :| m in nodes && EffectivePublic(nodes, m) && IsSelfOrAncestor(nodes[n].path, nodes[m].path);
      AncestryTransitive(nodes[p].path, nodes[n].path, nodes[m].path);
    }
  }

  // ── The same, following parent links ──────────────────────────────────────

  /** Public, and so is every level above but the root. */
  ghost predicate OpenAllTheWay(nodes: map<nat, Node>, n: nat)
    requires IsTree(nodes) && n in nodes
  {
    nodes[n].isPublic &&
    forall a :: a in nodes && nodes[a].parent.Some? && StrictlyAbove(nodes, a, n) ==> nodes[a].isPublic
  }

  lemma OpenExactly(nodes: map<nat, Node>, n: nat)
    requires IsTree(nodes) && n in nodes
    ensures EffectivePublic(nodes, n) <==> OpenAllTheWay(nodes, n)
  {
    forall a | a in nodes
      ensures IsStrictAncestor(nodes[a].path, nodes[n].path) <==> StrictlyAbove(nodes, a, n)
    {
      PathsAreAncestry(nodes, a, n);
    }
    if OpenAllTheWay(nodes, n) {
      assert HiddenAbove(nodes, nodes[n].path) == {};
    } else if nodes[n].isPublic {
      var a :| a in nodes && nodes[a].parent.Some? && StrictlyAbove(nodes, a, n) && !nodes[a].isPublic;
      assert a in HiddenAbove(nodes, nodes[n].path);
    }
  }

  /** The person owns the role or one above it. */
  ghost predicate OwnsAbove(nodes: map<nat, Node>, seats: map<Seat, Flags>, person: nat, n: nat)
    requires IsTree(nodes) && n in nodes
  {
    exists o :: OwnsAt(nodes, seats, person, n, o)
  }

  ghost predicate OwnsAt(nodes: map<nat, Node>, seats: map<Seat, Flags>, person: nat, n: nat, o: nat)
    requires IsTree(nodes) && n in nodes
  {
    o in nodes && (person, o, Kind.Owner) in seats && OnChain(nodes, o, n)
  }

  /** The person sits on the role or below it. */
  ghost predicate SitsBelow(nodes: map<nat, Node>, seats: map<Seat, Flags>, person: nat, n: nat)
    requires IsTree(nodes)
  {
    exists s :: SitsAt(nodes, seats, person, n, s)
  }

  ghost predicate SitsAt(nodes: map<nat, Node>, seats: map<Seat, Flags>, person: nat, n: nat, s: Seat)
    requires IsTree(nodes)
  {
    s in seats && s.0 == person && s.1 in nodes && OnChain(nodes, n, s.1)
  }

  /** Some role at it or below it is open all the way. */
  ghost predicate LeadsToOpen(nodes: map<nat, Node>, n: nat)
    requires IsTree(nodes)
  {
    exists m :: LeadsTo(nodes, n, m)
  }

  ghost predicate LeadsTo(nodes: map<nat, Node>, n: nat, m: nat)
    requires IsTree(nodes)
  {
    m in nodes && OnChain(nodes, n, m) && OpenAllTheWay(nodes, m)
  }

  /** Who sees a role: whoever owns above it, sits below it, or would be led by it to something open. */
  lemma SliceExactly(nodes: map<nat, Node>, seats: map<Seat, Flags>, person: nat, n: nat)
    requires IsTree(nodes) && n in nodes
    ensures n in Slice(nodes, seats, person) <==>
      OwnsAbove(nodes, seats, person, n) || SitsBelow(nodes, seats, person, n) || LeadsToOpen(nodes, n)
  {
    forall a | a in nodes
      ensures IsSelfOrAncestor(nodes[a].path, nodes[n].path) <==> OnChain(nodes, a, n)
      ensures IsSelfOrAncestor(nodes[n].path, nodes[a].path) <==> OnChain(nodes, n, a)
      ensures EffectivePublic(nodes, a) <==> OpenAllTheWay(nodes, a)
    {
      PathsAreAncestry(nodes, a, n);
      PathsAreAncestry(nodes, n, a);
      OpenExactly(nodes, a);
    }
    SeatsExactly(nodes, seats, person);
    if n in Slice(nodes, seats, person) {
      SeenFor(nodes, seats, person, n);
    }
    if o :| OwnsAt(nodes, seats, person, n, o) {
      assert o in Owned(nodes, seats, person);
    } else if s :| SitsAt(nodes, seats, person, n, s) {
      assert s.1 in Occupied(nodes, seats, person);
    } else if m :| LeadsTo(nodes, n, m) {
      assert EffectivePublic(nodes, m);
    }
  }

  lemma SeenFor(nodes: map<nat, Node>, seats: map<Seat, Flags>, person: nat, n: nat)
    requires IsTree(nodes) && n in Slice(nodes, seats, person)
    ensures OwnsAbove(nodes, seats, person, n) || SitsBelow(nodes, seats, person, n) || LeadsToOpen(nodes, n)
  {
    var path := nodes[n].path;
    if o :| o in Owned(nodes, seats, person) && IsSelfOrAncestor(nodes[o].path, path) {
      PathsAreAncestry(nodes, o, n);
      assert OwnsAt(nodes, seats, person, n, o);
    } else if o :| o in Occupied(nodes, seats, person) && IsSelfOrAncestor(path, nodes[o].path) {
      PathsAreAncestry(nodes, n, o);
      var s :| s in seats && s.0 == person && s.1 == o;
      assert SitsAt(nodes, seats, person, n, s);
    } else {
      var m :| m in nodes && EffectivePublic(nodes, m) && IsSelfOrAncestor(path, nodes[m].path);
      PathsAreAncestry(nodes, n, m);
      OpenExactly(nodes, m);
      assert LeadsTo(nodes, n, m);
    }
  }

  lemma SeatsExactly(nodes: map<nat, Node>, seats: map<Seat, Flags>, person: nat)
    ensures forall o :: o in Owned(nodes, seats, person) <==> o in nodes && (person, o, Kind.Owner) in seats
    ensures forall o ::
      o in Occupied(nodes, seats, person) <==> o in nodes && exists s :: s in seats && s.0 == person && s.1 == o
  {
    forall o | o in Owned(nodes, seats, person)
      ensures (person, o, Kind.Owner) in seats
    {
      var s :| s in seats && s.0 == person && s.2.Owner? && s.1 in nodes && s.1 == o;
      assert s == (person, o, Kind.Owner);
    }
  }

  /** What is below a hidden level stays out of sight of everybody who neither owns above it nor sits below it. */
  lemma HiddenStaysHidden(nodes: map<nat, Node>, seats: map<Seat, Flags>, person: nat, hidden: nat, n: nat)
    requires IsTree(nodes) && hidden in nodes && n in nodes
    requires nodes[hidden].parent.Some? && !nodes[hidden].isPublic && OnChain(nodes, hidden, n)
    requires !OwnsAbove(nodes, seats, person, n) && !SitsBelow(nodes, seats, person, n)
    ensures n !in Slice(nodes, seats, person)
  {
    SliceExactly(nodes, seats, person, n);
    if m :| LeadsTo(nodes, n, m) {
      ChainTransitive(nodes, hidden, n, m);
      StrictMeansOther(nodes, hidden, m);
      assert false;
    }
  }

  lemma ChainTransitive(nodes: map<nat, Node>, a: nat, b: nat, c: nat)
    requires IsTree(nodes) && a in nodes && b in nodes && c in nodes && OnChain(nodes, a, b) && OnChain(nodes, b, c)
    ensures OnChain(nodes, a, c)
  {
    PathsAreAncestry(nodes, a, b);
    PathsAreAncestry(nodes, b, c);
    PathsAreAncestry(nodes, a, c);
    AncestryTransitive(nodes[a].path, nodes[b].path, nodes[c].path);
  }

  // ── Approving a visibility request ────────────────────────────────────────

  /** Every level of the chain and the branch itself are opened. */
  function Unhide(nodes: map<nat, Node>, n: nat): map<nat, Node>
    requires n in nodes
  {
    map id | id in nodes ::
      if id == n || id in HiddenAbove(nodes, nodes[n].path) then nodes[id].(isPublic := true) else nodes[id]
  }

  /**
   * After approval the branch is effectively public, nobody loses sight of anything, and only the branch and the
   * levels above it were opened.
   */
  lemma ApprovalOpens(nodes: map<nat, Node>, seats: map<Seat, Flags>, n: nat)
    requires IsTree(nodes) && n in nodes
    ensures EffectivePublic(Unhide(nodes, n), n)
    ensures forall id :: id in nodes ==>
      && id in Unhide(nodes, n) && Unhide(nodes, n)[id] == nodes[id].(isPublic := Unhide(nodes, n)[id].isPublic)
      && (Unhide(nodes, n)[id].isPublic <==>
            nodes[id].isPublic || id == n || (nodes[id].parent.Some? && StrictlyAbove(nodes, id, n)))
    ensures forall m :: m in nodes && EffectivePublic(nodes, m) ==> EffectivePublic(Unhide(nodes, n), m)
    ensures forall person :: Slice(nodes, seats, person) <= Slice(Unhide(nodes, n), seats, person)
  {
    var nodes' := Unhide(nodes, n);
    forall id | id in nodes
      ensures IsStrictAncestor(nodes[id].path, nodes[n].path) <==> StrictlyAbove(nodes, id, n)
    {
      PathsAreAncestry(nodes, id, n);
    }
    assert HiddenAbove(nodes', nodes'[n].path) == {};
    forall m | m in nodes && EffectivePublic(nodes, m)
      ensures EffectivePublic(nodes', m)
    {
      assert HiddenAbove(nodes', nodes'[m].path) <= HiddenAbove(nodes, nodes[m].path);
    }
    forall person, v | v in Slice(nodes, seats, person)
      ensures v in Slice(nodes', seats, person)
    {
      StillVisible(nodes, nodes', seats, person, v);
    }
  }

  lemma StillVisible(nodes: map<nat, Node>, nodes': map<nat, Node>, seats: map<Seat, Flags>, person: nat, v: nat)
    requires v in nodes && Visible(nodes, seats, person, v)
    requires nodes'.Keys == nodes.Keys && forall id :: id in nodes ==> nodes'[id].path == nodes[id].path
    requires forall m :: m in nodes && EffectivePublic(nodes, m) ==> EffectivePublic(nodes', m)
    ensures Visible(nodes', seats, person, v)
  {
    assert Owned(nodes', seats, person) == Owned(nodes, seats, person);
    assert Occupied(nodes', seats, person) == Occupied(nodes, seats, person);
  }

  /** Where a visibility request is decided: the topmost level that hides the branch, or the branch itself. */
  ghost predicate IsGate(nodes: map<nat, Node>, n: nat, g: nat)
    requires n in nodes
  {
    var hidden := HiddenAbove(nodes, nodes[n].path);
    if hidden == {} then g == n
    else g in hidden && forall a :: a in hidden ==> |nodes[g].path| <= |nodes[a].path|
  }

  method GateOf(nodes: map<nat, Node>, n: nat) returns (g: nat)
    requires IsTree(nodes) && n in nodes
    ensures g in nodes && IsGate(nodes, n, g)
    ensures forall h :: h in nodes && IsGate(nodes, n, h) ==> h == g
  {
    var top := HiddenAncestorOf(nodes, n);
    g := if top.Some? then top.value else n;
    forall h | h in nodes && IsGate(nodes, n, h)
      ensures h == g
    {
      GateIsUnique(nodes, n, g, h);
    }
  }

  lemma GateIsUnique(nodes: map<nat, Node>, n: nat, g: nat, h: nat)
    requires IsTree(nodes) && n in nodes && g in nodes && h in nodes && IsGate(nodes, n, g) && IsGate(nodes, n, h)
    ensures g == h
  {
    var path := nodes[n].path;
    if HiddenAbove(nodes, path) != {} {
      AncestorEnds(nodes[g].path, path);
      AncestorEnds(nodes[h].path, path);
      assert |nodes[g].path| == |nodes[h].path|;
      SamePath(nodes, g, h);
    }
  }

  /** Whoever may open the topmost hidden level may open every level beneath it. */
  lemma GateCoversChain(nodes: map<nat, Node>, refs: set<PlacementRef>, n: nat, chain: seq<nat>, x: nat)
    requires IsTree(nodes) && n in nodes && IsHiddenChain(nodes, nodes[n].path, chain)
    requires forall a :: a in chain ==> a in nodes
    requires Can(refs, AddPeople, if chain == [] then nodes[n].path else nodes[chain[0]].path)
    requires x == n || x in chain
    ensures Can(refs, AddPeople, nodes[x].path)
  {
    var gate := if chain == [] then nodes[n].path else nodes[chain[0]].path;
    var p := Deciding(refs, AddPeople, gate);
    if chain != [] {
      assert chain[0] in HiddenAbove(nodes, nodes[n].path);
      if x != n {
        assert x in HiddenAbove(nodes, nodes[n].path);
        HeadIsShortest(nodes, nodes[n].path, chain, x);
        AncestorsAreNested(gate, nodes[x].path, nodes[n].path);
      }
      AncestryTransitive(p.path, gate, nodes[x].path);
    }
    Decided(refs, p, AddPeople, nodes[x].path);
  }
}
