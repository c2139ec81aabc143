/** The central authorization function, over materialised role paths. */
module Policy {
  datatype Kind = Owner | Member

  datatype Action = CreateContent | AddPeople | AddCoOwner | CreateSubRole | SetVisibility | ManageFlags | DeleteRole

  /** One of the actor's placements, as the policy sees it. */
  datatype PlacementRef = PlacementRef(role: nat, path: string, kind: Kind, canCreateSubgroups: bool,
      canAddCoOwners: bool)

  predicate StartsWith(s: string, prefix: string) { |prefix| <= |s| && s[..|prefix|] == prefix }

  predicate IsSelfOrAncestor(ancestorPath: string, nodePath: string) {
    nodePath == ancestorPath || StartsWith(nodePath, ancestorPath + ".")
  }

  predicate IsStrictAncestor(ancestorPath: string, nodePath: string) { StartsWith(nodePath, ancestorPath + ".") }

  predicate IsRootRolePath(path: string) { '.' !in path }

  predicate Can(placements: set<PlacementRef>, action: Action, nodePath: string) {
    match action
    case ManageFlags => exists p :: p in placements && p.kind.Owner? && IsStrictAncestor(p.path, nodePath)
    case DeleteRole => exists p :: p in placements && p.kind.Owner? && IsStrictAncestor(p.path, nodePath)
    case _ =>
      if action.SetVisibility? && IsRootRolePath(nodePath) then false
      else
        var governing := set p | p in placements && p.kind.Owner? && IsSelfOrAncestor(p.path, nodePath);
        match action
        case CreateSubRole => exists p :: p in governing && p.canCreateSubgroups
        case AddCoOwner => exists p :: p in governing && (p.canAddCoOwners || IsStrictAncestor(p.path, nodePath))
        case _ => governing != {}
  }

  // ── Strings ───────────────────────────────────────────────────────────────

  lemma AncestryTransitive(a: string, b: string, c: string)
    requires IsSelfOrAncestor(a, b) && IsSelfOrAncestor(b, c)
    ensures IsSelfOrAncestor(a, c)
    ensures IsStrictAncestor(a, b) || IsStrictAncestor(b, c) ==> IsStrictAncestor(a, c)
  {
    if a != b && b != c {
      PrefixTransitive(a + ".", b, c);
    }
  }

  lemma PrefixTransitive(x: string, b: string, c: string)
    requires StartsWith(b, x) && StartsWith(c, b + ".")
    ensures StartsWith(c, x)
  {
    assert c[..|x|] == (b + ".")[..|x|] == b[..|x|];
  }

  /** Two ancestors of one node are ancestors of each other, the shorter first. */
  lemma AncestorsAreNested(a: string, b: string, n: string)
    requires IsSelfOrAncestor(a, n) && IsSelfOrAncestor(b, n) && |a| <= |b|
    ensures IsSelfOrAncestor(a, b)
  {
    assert n[..|a|] == a && n[..|b|] == b;
    if |a| < |b| {
      assert n[..|a| + 1] == a + ".";
      assert b[..|a| + 1] == n[..|a| + 1];
    }
  }

  /** Below a parent, the ancestors of a child are the child and the ancestors of the parent. */
  lemma ChildAncestors(a: string, parent: string, tail: string)
    requires '.' !in tail
    ensures IsSelfOrAncestor(a, parent + "." + tail) <==> a == parent + "." + tail || IsSelfOrAncestor(a, parent)
    ensures IsStrictAncestor(a, parent + "." + tail) <==> IsSelfOrAncestor(a, parent)
  {
    var n := parent + "." + tail;
    if StartsWith(n, a + ".") {
      LastDot(a, parent, tail);
    }
    if a == parent || StartsWith(parent, a + ".") {
      assert n[..|a| + 1] == a + ".";
    }
  }

  lemma LastDot(a: string, parent: string, tail: string)
    requires '.' !in tail && StartsWith(parent + "." + tail, a + ".")
    ensures IsSelfOrAncestor(a, parent)
  {
    var n := parent + "." + tail;
    PrefixDot(a, n);
    forall i | |parent| < i < |n|
      ensures n[i] != '.'
    {
      assert n[i] == tail[i - |parent| - 1];
    }
    assert |a| <= |parent| && n[..|a|] == a;
    if |a| < |parent| {
      assert parent[..|a| + 1] == n[..|a| + 1] == a + ".";
    } else {
      assert parent == n[..|parent|] == a;
    }
  }

  lemma PrefixDot(a: string, n: string)
    requires StartsWith(n, a + ".")
    ensures |a| < |n| && n[|a|] == '.'
  {
    assert n[..|a| + 1][|a|] == (a + ".")[|a|];
  }
}
