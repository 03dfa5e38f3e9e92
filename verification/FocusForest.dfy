/**
 The focus-area forest shared by the popup and the list view: its shape, its preorder listing, and
 the two searches `findParents` and `findChildrens`.

 A forest is a list of trees, so a single recursion into "children of the first tree" and "the other
 trees" serves every function below.
 */
module FocusForest {
  /** The one property of a node that the program writes after the forest was loaded. */
  class IndexSlot {
    var index: int
  }

  datatype FocusArea = FocusArea(uid: string, title: string, children: seq<FocusArea>, slot: IndexSlot)

  function Preorder(areas: seq<FocusArea>): seq<FocusArea> {
    if areas == [] then []
    else [areas[0]] + Preorder(areas[0].children) + Preorder(areas[1..])
  }

  /** What `findChildrens` collects: everything strictly below a node. */
  function Descendants(area: FocusArea): seq<FocusArea> {
    Preorder(area.children)
  }

  function Uids(areas: seq<FocusArea>): set<string> {
    if areas == [] then {}
    else {areas[0].uid} + Uids(areas[0].children) + Uids(areas[1..])
  }

  ghost predicate DistinctUids(items: seq<FocusArea>) {
    forall i, j :: 0 <= i < j < |items| ==> items[i].uid != items[j].uid
  }

  /** The uid is the primary key of a focus area: no two nodes of the forest share one. */
  ghost predicate UniqueUids(areas: seq<FocusArea>) {
    DistinctUids(Preorder(areas))
  }

  /** Some node with uid `above` has a node with uid `below` strictly underneath it. */
  ghost predicate IsAncestor(areas: seq<FocusArea>, above: string, below: string) {
    exists n :: n in Preorder(areas) && n.uid == above && below in Uids(n.children)
  }

  /** The nodes from a root down to the parent of the node `uid`. */
  ghost predicate IsPathTo(areas: seq<FocusArea>, path: seq<FocusArea>, uid: string) {
    if path == [] then exists root :: root in areas && root.uid == uid
    else path[0] in areas && IsPathTo(path[0].children, path[1..], uid)
  }

  // ----- the two searches

  /** The recursion of `findParents`: a match contributes the nodes passed on the way and is not entered. */
  function ParentsFrom(areas: seq<FocusArea>, uid: string, above: seq<FocusArea>): seq<FocusArea> {
    if areas == [] then []
    else
      (if areas[0].uid == uid then above else ParentsFrom(areas[0].children, uid, above + [areas[0]]))
      + ParentsFrom(areas[1..], uid, above)
  }

  function Parents(areas: seq<FocusArea>, uid: string): seq<FocusArea> {
    ParentsFrom(areas, uid, [])
  }

  method FindParents(data: seq<FocusArea>, childUid: string) returns (parents: seq<FocusArea>)
    ensures parents == Parents(data, childUid)
  {
    parents := [];
    for i := 0 to |data|
      invariant parents == ParentsFrom(data[..i], childUid, [])
    {
      parents := FindParentsRecursive(data[i], childUid, [], parents);
      ParentsFromSnoc(data, i, childUid, []);
    }
    assert data[..|data|] == data;
  }

  method FindParentsRecursive(item: FocusArea, childUid: string, currentParents: seq<FocusArea>, found: seq<FocusArea>)
    returns (parents: seq<FocusArea>)
    ensures parents == found + ParentsFrom([item], childUid, currentParents)
    decreases item
  {
    if item.uid == childUid {
      return found + currentParents;
    }
    var updatedParents := currentParents + [item];
    parents := found;
    for i := 0 to |item.children|
      invariant parents == found + ParentsFrom(item.children[..i], childUid, updatedParents)
    {
      parents := FindParentsRecursive(item.children[i], childUid, updatedParents, parents);
      ParentsFromSnoc(item.children, i, childUid, updatedParents);
    }
    assert item.children[..|item.children|] == item.children;
  }

  method FindChildrens(node: FocusArea) returns (children: seq<FocusArea>)
    ensures children == Descendants(node)
  {
    children := FindChildrenRecursive(node, []);
  }

  method FindChildrenRecursive(currentNode: FocusArea, found: seq<FocusArea>) returns (children: seq<FocusArea>)
    ensures children == found + Descendants(currentNode)
    decreases currentNode
  {
    children := found;
    var below := currentNode.children;
    for i := 0 to |below|
      invariant children == found + Preorder(below[..i])
    {
      PreorderSnoc(below, i);
      children := children + [below[i]];
      children := FindChildrenRecursive(below[i], children);
    }
    assert below[..|below|] == below;
  }

  lemma {:induction false} PreorderAppend(a: seq<FocusArea>, b: seq<FocusArea>)
    ensures Preorder(a + b) == Preorder(a) + Preorder(b)
  {
    if a == [] {
      assert a + b == b;
    } else {
      assert (a + b)[1..] == a[1..] + b;
      PreorderAppend(a[1..], b);
    }
  }

  lemma PreorderSnoc(areas: seq<FocusArea>, i: nat)
    requires i < |areas|
    ensures Preorder(areas[..i + 1]) == Preorder(areas[..i]) + [areas[i]] + Descendants(areas[i])
  {
    assert areas[..i + 1] == areas[..i] + [areas[i]];
    PreorderAppend(areas[..i], [areas[i]]);
    assert [areas[i]][1..] == [];
  }

  lemma ParentsFromSnoc(areas: seq<FocusArea>, i: nat, uid: string, above: seq<FocusArea>)
    requires i < |areas|
    ensures ParentsFrom(areas[..i + 1], uid, above)
            == ParentsFrom(areas[..i], uid, above) + ParentsFrom([areas[i]], uid, above)
  {
    assert areas[..i + 1] == areas[..i] + [areas[i]];
    ParentsFromAppend(areas[..i], [areas[i]], uid, above);
  }

  lemma {:induction false} ParentsFromAppend(a: seq<FocusArea>, b: seq<FocusArea>, uid: string, above: seq<FocusArea>)
    ensures ParentsFrom(a + b, uid, above) == ParentsFrom(a, uid, above) + ParentsFrom(b, uid, above)
  {
    if a == [] {
      assert a + b == b;
    } else {
      assert (a + b)[1..] == a[1..] + b;
      ParentsFromAppend(a[1..], b, uid, above);
    }
  }

  // ----- uniqueness, one tree at a time

  lemma {:induction false} UidsArePreorder(areas: seq<FocusArea>)
    ensures forall n :: n in Preorder(areas) ==> n.uid in Uids(areas)
    ensures forall u :: u in Uids(areas) ==> exists n :: n in Preorder(areas) && n.uid == u
  {
    if areas != [] {
      UidsArePreorder(areas[0].children);
      UidsArePreorder(areas[1..]);
      assert areas[0] in Preorder(areas);
      forall u | u in Uids(areas)
        ensures exists n :: n in Preorder(areas) && n.uid == u
      {
        if u in Uids(areas[0].children) {
          var n :| n in Preorder(areas[0].children) && n.uid == u;
          assert n in Preorder(areas);
        } else if u in Uids(areas[1..]) {
          var n :| n in Preorder(areas[1..]) && n.uid == u;
          assert n in Preorder(areas);
        }
      }
    }
  }

  /** Distinct uids of a concatenation: distinct within each part and across the two. */
  lemma DistinctParts(a: seq<FocusArea>, b: seq<FocusArea>)
    requires DistinctUids(a + b)
    ensures DistinctUids(a) && DistinctUids(b)
    ensures forall n, m :: n in a && m in b ==> n.uid != m.uid
  {
    var all := a + b;
    assert forall i :: 0 <= i < |a| ==> a[i] == all[i];
    assert forall i :: 0 <= i < |b| ==> b[i] == all[|a| + i];
  }

  /** Unique uids, unfolded once. */
  lemma UniqueParts(areas: seq<FocusArea>)
    requires UniqueUids(areas) && areas != []
    ensures UniqueUids(areas[0].children) && UniqueUids(areas[1..])
    ensures areas[0].uid !in Uids(areas[0].children) && areas[0].uid !in Uids(areas[1..])
    ensures Uids(areas[0].children) !! Uids(areas[1..])
  {
    var first, below, rest := areas[0], Preorder(areas[0].children), Preorder(areas[1..]);
    DistinctParts([first] + below, rest);
    DistinctParts([first], below);
    assert first in [first] && first in [first] + below;
    UidsArePreorder(areas[0].children);
    UidsArePreorder(areas[1..]);
    forall u | u in Uids(areas[0].children) ensures u !in Uids(areas[1..]) {
      var n :| n in below && n.uid == u;
      assert n in [first] + below;
    }
  }

  lemma {:induction false} SameUidSameNode(areas: seq<FocusArea>, n: FocusArea, m: FocusArea)
    requires UniqueUids(areas) && n in Preorder(areas) && m in Preorder(areas) && n.uid == m.uid
    ensures n == m
  {
  }

  lemma {:induction false} AncestorParts(areas: seq<FocusArea>, above: string, below: string)
    requires areas != []
    ensures IsAncestor(areas, above, below) <==>
            || (areas[0].uid == above && below in Uids(areas[0].children))
            || IsAncestor(areas[0].children, above, below)
            || IsAncestor(areas[1..], above, below)
  {
    assert areas[0] in Preorder(areas);
    forall n ensures n in Preorder(areas) <==>
                     n == areas[0] || n in Preorder(areas[0].children) || n in Preorder(areas[1..])
    {}
  }

  lemma {:induction false} AncestorsAreListed(areas: seq<FocusArea>, above: string, below: string)
    requires IsAncestor(areas, above, below)
    ensures above in Uids(areas) && below in Uids(areas)
  {
    AncestorParts(areas, above, below);
    if IsAncestor(areas[0].children, above, below) {
      AncestorsAreListed(areas[0].children, above, below);
    } else if IsAncestor(areas[1..], above, below) {
      AncestorsAreListed(areas[1..], above, below);
    }
  }

  // ----- findParents against its specification

  lemma {:induction false} NoParentsOfAbsent(areas: seq<FocusArea>, uid: string, above: seq<FocusArea>)
    requires uid !in Uids(areas)
    ensures ParentsFrom(areas, uid, above) == []
  {
    if areas != [] {
      NoParentsOfAbsent(areas[0].children, uid, above + [areas[0]]);
      NoParentsOfAbsent(areas[1..], uid, above);
    }
  }

  lemma {:induction false} ParentsShift(areas: seq<FocusArea>, uid: string, above: seq<FocusArea>)
    requires UniqueUids(areas) && uid in Uids(areas)
    ensures ParentsFrom(areas, uid, above) == above + Parents(areas, uid)
  {
    UniqueParts(areas);
    var first, rest := areas[0], areas[1..];
    if first.uid == uid {
      NoParentsOfAbsent(rest, uid, above);
      NoParentsOfAbsent(rest, uid, []);
    } else if uid in Uids(first.children) {
      NoParentsOfAbsent(rest, uid, above);
      NoParentsOfAbsent(rest, uid, []);
      ParentsShift(first.children, uid, above + [first]);
      ParentsShift(first.children, uid, [] + [first]);
    } else {
      NoParentsOfAbsent(first.children, uid, above + [first]);
      NoParentsOfAbsent(first.children, uid, [] + [first]);
      ParentsShift(rest, uid, above);
    }
  }

  lemma {:induction false} PathsLeadToListed(areas: seq<FocusArea>, path: seq<FocusArea>, uid: string)
    requires IsPathTo(areas, path, uid)
    ensures uid in Uids(areas)
    decreases areas
  {
    if areas != [] {
      if path == [] {
        var root :| root in areas && root.uid == uid;
        if root != areas[0] {
          assert root in areas[1..];
          PathsLeadToListed(areas[1..], path, uid);
        }
      } else if path[0] == areas[0] {
        PathsLeadToListed(areas[0].children, path[1..], uid);
      } else {
        PathsLeadToListed(areas[1..], path, uid);
      }
    }
  }

  /** `findParents` finds the path, and there is no other: it is fixed in content and in order. */
  lemma {:induction false} ParentsIsThePath(areas: seq<FocusArea>, path: seq<FocusArea>, uid: string)
    requires UniqueUids(areas) && uid in Uids(areas)
    ensures path == Parents(areas, uid) <==> IsPathTo(areas, path, uid)
  {
    ParentsIsAPath(areas, uid);
    if IsPathTo(areas, path, uid) {
      PathsAreParents(areas, path, uid);
    }
  }

  /** `findParents` on a forest with unique uids: at a root, in the first tree, or among the others. */
  lemma ParentsUnfold(areas: seq<FocusArea>, uid: string)
    requires UniqueUids(areas) && uid in Uids(areas)
    ensures UniqueUids(areas[0].children) && UniqueUids(areas[1..])
    ensures Parents(areas, uid) ==
              if areas[0].uid == uid then []
              else if uid in Uids(areas[0].children) then [areas[0]] + Parents(areas[0].children, uid)
              else Parents(areas[1..], uid)
  {
    UniqueParts(areas);
    var first, rest := areas[0], areas[1..];
    assert [] + [first] == [first];
    if first.uid == uid {
      NoParentsOfAbsent(rest, uid, []);
    } else if uid in Uids(first.children) {
      NoParentsOfAbsent(rest, uid, []);
      ParentsShift(first.children, uid, [first]);
    } else {
      NoParentsOfAbsent(first.children, uid, [first]);
    }
  }

  lemma PathBelow(areas: seq<FocusArea>, root: FocusArea, path: seq<FocusArea>, uid: string)
    requires root in areas && IsPathTo(root.children, path, uid)
    ensures IsPathTo(areas, [root] + path, uid)
  {
    assert ([root] + path)[1..] == path;
  }

  lemma PathAmongMore(areas: seq<FocusArea>, path: seq<FocusArea>, uid: string)
    requires areas != [] && IsPathTo(areas[1..], path, uid)
    ensures IsPathTo(areas, path, uid)
  {
  }

  lemma {:induction false} ParentsIsAPath(areas: seq<FocusArea>, uid: string)
    requires UniqueUids(areas) && uid in Uids(areas)
    ensures IsPathTo(areas, Parents(areas, uid), uid)
  {
    ParentsUnfold(areas, uid);
    if areas[0].uid == uid {
      assert areas[0] in areas;
    } else if uid in Uids(areas[0].children) {
      ParentsIsAPath(areas[0].children, uid);
      PathBelow(areas, areas[0], Parents(areas[0].children, uid), uid);
    } else {
      ParentsIsAPath(areas[1..], uid);
      PathAmongMore(areas, Parents(areas[1..], uid), uid);
    }
  }

  lemma {:induction false} PathsAreParents(areas: seq<FocusArea>, path: seq<FocusArea>, uid: string)
    requires UniqueUids(areas) && IsPathTo(areas, path, uid)
    ensures path == Parents(areas, uid)
    decreases areas
  {
    PathsLeadToListed(areas, path, uid);
    UniqueParts(areas);
    ParentsUnfold(areas, uid);
    var first, rest := areas[0], areas[1..];
    if path != [] && path[0] == first {
      PathsLeadToListed(first.children, path[1..], uid);
      PathsAreParents(first.children, path[1..], uid);
    } else if path != [] || first.uid != uid {
      assert IsPathTo(rest, path, uid);
      PathsLeadToListed(rest, path, uid);
      PathsAreParents(rest, path, uid);
    }
  }

  // ----- duality of the two searches

  lemma {:induction false} ParentsAreAncestors(areas: seq<FocusArea>, above: seq<FocusArea>, a: string, x: string)
    requires UniqueUids(areas)
    ensures (exists p :: p in ParentsFrom(areas, x, above) && p.uid == a) <==>
            || (x in Uids(areas) && exists p :: p in above && p.uid == a)
            || IsAncestor(areas, a, x)
  {
    if areas != [] {
      UniqueParts(areas);
      AncestorParts(areas, a, x);
      var first, rest := areas[0], areas[1..];
      var here := if first.uid == x then above else ParentsFrom(first.children, x, above + [first]);
      ParentsAreAncestors(rest, above, a, x);
      forall p ensures p in ParentsFrom(areas, x, above) <==> p in here || p in ParentsFrom(rest, x, above) {}
      if first.uid == x {
        if IsAncestor(first.children, a, x) { AncestorsAreListed(first.children, a, x); }
      } else {
        ParentsAreAncestors(first.children, above + [first], a, x);
        forall p ensures p in above + [first] <==> p in above || p == first {}
      }
      if IsAncestor(rest, a, x) { AncestorsAreListed(rest, a, x); }
      if IsAncestor(first.children, a, x) { AncestorsAreListed(first.children, a, x); }
    }
  }

  lemma {:induction false} SubforestOf(areas: seq<FocusArea>, n: FocusArea)
    requires n in Preorder(areas)
    ensures forall d :: d in Descendants(n) ==> d in Preorder(areas)
    ensures UniqueUids(areas) ==> UniqueUids(n.children)
  {
    if UniqueUids(areas) { UniqueParts(areas); }
    if n in Preorder(areas[0].children) {
      SubforestOf(areas[0].children, n);
    } else if n in Preorder(areas[1..]) {
      SubforestOf(areas[1..], n);
    }
  }

  /** A node's ancestors by uid are exactly the nodes that have it among their descendants. */
  lemma AncestorByNode(areas: seq<FocusArea>, a: FocusArea, x: FocusArea)
    requires UniqueUids(areas) && a in Preorder(areas) && x in Preorder(areas)
    ensures IsAncestor(areas, a.uid, x.uid) <==> x in Descendants(a)
  {
    UidsArePreorder(a.children);
    SubforestOf(areas, a);
    if IsAncestor(areas, a.uid, x.uid) {
      var n :| n in Preorder(areas) && n.uid == a.uid && x.uid in Uids(n.children);
      SameUidSameNode(areas, n, a);
      var d :| d in Preorder(a.children) && d.uid == x.uid;
      SameUidSameNode(areas, d, x);
    }
  }

  /** Everything `findParents` returns is a node of the forest. */
  lemma {:induction false} ParentsAreNodes(areas: seq<FocusArea>, uid: string, above: seq<FocusArea>)
    ensures forall p :: p in ParentsFrom(areas, uid, above) ==> p in above || p in Preorder(areas)
  {
    if areas != [] {
      ParentsAreNodes(areas[0].children, uid, above + [areas[0]]);
      ParentsAreNodes(areas[1..], uid, above);
    }
  }

  /** `findParents` and `findChildrens` are dual. */
  lemma Duality(areas: seq<FocusArea>, a: FocusArea, x: FocusArea)
    requires UniqueUids(areas) && a in Preorder(areas) && x in Preorder(areas)
    ensures a in Parents(areas, x.uid) <==> x in Descendants(a)
  {
    ParentsAreAncestors(areas, [], a.uid, x.uid);
    ParentsAreNodes(areas, x.uid, []);
    AncestorByNode(areas, a, x);
    if p :| p in Parents(areas, x.uid) && p.uid == a.uid {
      SameUidSameNode(areas, p, a);
    }
  }
}
