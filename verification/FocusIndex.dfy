/** The focus-area list view: preorder numbering in place, and looking an index up. */
module FocusIndex {
  import opened Sequences
  import opened FocusForest

  ghost predicate DistinctSlots(nodes: seq<FocusArea>) {
    forall i, j :: 0 <= i < j < |nodes| ==> nodes[i].slot != nodes[j].slot
  }

  ghost function Slots(nodes: seq<FocusArea>): set<IndexSlot> {
    set n | n in nodes :: n.slot
  }

  /** The nodes carry consecutive indices. */
  ghost predicate Numbered(nodes: seq<FocusArea>, start: int)
    reads Slots(nodes)
  {
    forall k :: 0 <= k < |nodes| ==> nodes[k].slot.index == start + k
  }

  // ----- numbering

  method GetFormattedFocusArea(focusArea: seq<FocusArea>)
    requires DistinctSlots(Preorder(focusArea))
    modifies Slots(Preorder(focusArea))
    ensures Numbered(Preorder(focusArea), 1)
    ensures old(Numbered(Preorder(focusArea), 1)) ==>
              forall n :: n in Preorder(focusArea) ==> n.slot.index == old(n.slot.index)
  {
    var index := TraverseEach(focusArea, 1);
  }

  method Traverse(node: FocusArea, index: int) returns (next: int)
    requires DistinctSlots(Preorder([node]))
    modifies Slots(Preorder([node]))
    ensures next == index + |Preorder([node])|
    ensures Numbered(Preorder([node]), index)
    decreases node
  {
    var all := Preorder([node]);
    assert all == [node] + Preorder(node.children);
    assert forall k :: 0 <= k < |Preorder(node.children)| ==> Preorder(node.children)[k] == all[1 + k];
    node.slot.index := index;
    next := TraverseEach(node.children, index + 1);
  }

  /** `nodes.forEach(traverse)`, with the shared counter handed through. */
  method TraverseEach(nodes: seq<FocusArea>, index: int) returns (next: int)
    requires DistinctSlots(Preorder(nodes))
    modifies Slots(Preorder(nodes))
    ensures next == index + |Preorder(nodes)|
    ensures Numbered(Preorder(nodes), index)
    decreases nodes
  {
    next := index;
    ghost var done := [];
    for i := 0 to |nodes|
      invariant done == Preorder(nodes[..i])
      invariant next == index + |done|
      invariant Numbered(done, index)
    {
      ghost var here, rest := Preorder([nodes[i]]), Preorder(nodes[i + 1..]);
      PreorderConcat(nodes[..i + 1], nodes[..i], [nodes[i]]);
      PreorderConcat(nodes, nodes[..i + 1], nodes[i + 1..]);
      SlotsSplit(Preorder(nodes), done, here, rest);
      next := Traverse(nodes[i], next);
      NumberedAppend(done, here, index);
      done := done + here;
    }
    assert nodes[..|nodes|] == nodes;
  }

  lemma SlotsSplit(all: seq<FocusArea>, a: seq<FocusArea>, b: seq<FocusArea>, c: seq<FocusArea>)
    requires all == a + b + c && DistinctSlots(all)
    ensures DistinctSlots(b) && Slots(a) !! Slots(b) && Slots(b) <= Slots(all)
  {
    assert forall i :: 0 <= i < |a| ==> a[i] == all[i];
    assert forall i :: 0 <= i < |b| ==> b[i] == all[|a| + i];
  }

  lemma NumberedAppend(a: seq<FocusArea>, b: seq<FocusArea>, start: int)
    requires Numbered(a, start) && Numbered(b, start + |a|)
    ensures Numbered(a + b, start)
  {
  }

  lemma PreorderConcat(all: seq<FocusArea>, a: seq<FocusArea>, b: seq<FocusArea>)
    requires all == a + b
    ensures Preorder(all) == Preorder(a) + Preorder(b)
  {
    PreorderAppend(a, b);
  }

  /** The descendants of the node at `k` are the nodes listed right after it. */
  ghost predicate FollowedByDescendants(listing: seq<FocusArea>, k: nat)
    requires k < |listing|
  {
    var below := Descendants(listing[k]);
    k + 1 + |below| <= |listing| && listing[k + 1..k + 1 + |below|] == below
  }

  lemma FollowedShift(a: seq<FocusArea>, b: seq<FocusArea>, c: seq<FocusArea>, k: nat)
    requires k < |b| && FollowedByDescendants(b, k)
    ensures FollowedByDescendants(a + b + c, |a| + k)
  {
    var m := |Descendants(b[k])|;
    assert (a + b + c)[|a| + k] == b[k];
    assert (a + b + c)[|a| + k + 1..|a| + k + 1 + m] == b[k + 1..k + 1 + m];
  }

  lemma RootFollowed(first: FocusArea, rest: seq<FocusArea>)
    ensures FollowedByDescendants([first] + Descendants(first) + rest, 0)
  {
  }

  /** In preorder every node's descendants fill the contiguous range right after it. */
  lemma {:induction false} DescendantsFollow(areas: seq<FocusArea>, k: nat)
    requires k < |Preorder(areas)|
    ensures FollowedByDescendants(Preorder(areas), k)
  {
    var first, below, rest := areas[0], Preorder(areas[0].children), Preorder(areas[1..]);
    if k == 0 {
      RootFollowed(first, rest);
    } else if k <= |below| {
      DescendantsFollow(first.children, k - 1);
      FollowedShift([first], below, rest, k - 1);
    } else {
      DescendantsFollow(areas[1..], k - 1 - |below|);
      FollowedShift([first] + below, rest, [], k - 1 - |below|);
      assert [first] + below + rest + [] == [first] + below + rest;
    }
  }

  /** On the numbered forest the descendants of a node carry the indices right after its own, in preorder. */
  lemma DescendantsAreNumberedNext(areas: seq<FocusArea>, a: FocusArea, k: nat)
    requires Numbered(Preorder(areas), 1) && a in Preorder(areas) && k < |Descendants(a)|
    ensures Descendants(a)[k].slot.index == a.slot.index + 1 + k
  {
    var all, below := Preorder(areas), Descendants(a);
    var j :| 0 <= j < |all| && all[j] == a;
    DescendantsFollow(areas, j);
    assert all[j + 1..j + 1 + |below|][k] == all[j + 1 + k];
  }

  /** On the numbered forest, being a descendant is having an index in the range right after a node's own. */
  lemma DescentIsARange(areas: seq<FocusArea>, a: FocusArea, x: FocusArea)
    requires Numbered(Preorder(areas), 1) && a in Preorder(areas) && x in Preorder(areas)
    ensures x in Descendants(a) <==> a.slot.index < x.slot.index <= a.slot.index + |Descendants(a)|
  {
    var all, below := Preorder(areas), Descendants(a);
    var j :| 0 <= j < |all| && all[j] == a;
    var k :| 0 <= k < |all| && all[k] == x;
    if x in below {
      var i :| 0 <= i < |below| && below[i] == x;
      DescendantsAreNumberedNext(areas, a, i);
    }
    if j < k <= j + |below| {
      DescendantsFollow(areas, j);
      assert all[j + 1..j + 1 + |below|][k - j - 1] == x;
    }
  }

  // ----- looking an index up

  /** The first place of a node with this uid, or the length of the listing. */
  function Position(nodes: seq<FocusArea>, uid: string): (k: nat)
    ensures k <= |nodes|
    ensures k < |nodes| ==> nodes[k].uid == uid
    ensures forall i :: 0 <= i < k ==> nodes[i].uid != uid
  {
    if nodes == [] || nodes[0].uid == uid then 0 else 1 + Position(nodes[1..], uid)
  }

  /** The index the numbered forest gives to a uid. */
  function IndexOf(areas: seq<FocusArea>, uid: string): Option<int> {
    var k := Position(Preorder(areas), uid);
    if k < |Preorder(areas)| then Some(1 + k) else None
  }

  lemma {:induction false} TopsAreListed(areas: seq<FocusArea>)
    ensures forall n :: n in areas ==> n in Preorder(areas)
  {
    if areas != [] {
      TopsAreListed(areas[1..]);
    }
  }

  /** A node below one of the trees is not a root. */
  lemma {:induction false} DeepIsNotTop(areas: seq<FocusArea>, i: nat, n: FocusArea)
    requires UniqueUids(areas) && i < |areas| && n in Preorder(areas[i].children)
    ensures n !in areas
  {
    UniqueParts(areas);
    var rest := areas[1..];
    if i == 0 {
      UidsArePreorder(areas[0].children);
      UidsOfTops(rest);
    } else {
      assert rest[i - 1] == areas[i];
      DeepIsNotTop(rest, i - 1, n);
      TopsAreListed(rest);
      SubforestOf(rest, areas[i]);
      UidsArePreorder(rest);
    }
  }

  lemma UidsOfTops(areas: seq<FocusArea>)
    ensures forall n :: n in areas ==> n.uid in Uids(areas)
  {
    TopsAreListed(areas);
    UidsArePreorder(areas);
  }

  /** The recursion of `findItemIndex` passes a node over: an index of 0 below the roots reads as "not found". */
  ghost predicate Overlooked(nodes: seq<FocusArea>, n: FocusArea)
    reads n.slot
  {
    n !in nodes && n.slot.index == 0
  }

  /** Every node with this uid in the list is passed over. */
  ghost predicate AllOverlooked(nodes: seq<FocusArea>, list: seq<FocusArea>, uid: string)
    reads Slots(list)
  {
    forall n :: n in list && n.uid == uid ==> Overlooked(nodes, n)
  }

  /** A node that was found is the only one with its uid. */
  lemma FoundOnce(nodes: seq<FocusArea>, i: nat, m: FocusArea)
    requires UniqueUids(nodes) && i < |nodes| && (m == nodes[i] || m in Preorder(nodes[i].children))
    ensures m in Preorder(nodes) && m.uid in Uids(nodes)
    ensures forall n :: n in Preorder(nodes) && n.uid == m.uid ==> n == m
  {
    TopsAreListed(nodes);
    SubforestOf(nodes, nodes[i]);
    UidsArePreorder(nodes);
    forall n | n in Preorder(nodes) && n.uid == m.uid ensures n == m { SameUidSameNode(nodes, n, m); }
  }

  lemma PassTree(nodes: seq<FocusArea>, i: nat, uid: string)
    requires UniqueUids(nodes) && i < |nodes| && nodes[i].uid != uid
    requires AllOverlooked(nodes, Preorder(nodes[..i]), uid)
    requires forall n :: n in Preorder(nodes[i].children) && n.uid == uid ==> n.slot.index == 0
    ensures AllOverlooked(nodes, Preorder(nodes[..i + 1]), uid)
  {
    var node := nodes[i];
    PreorderConcat(nodes[..i + 1], nodes[..i], [node]);
    assert Preorder([node]) == [node] + Preorder(node.children);
    forall n | n in Preorder(node.children) && n.uid == uid ensures Overlooked(nodes, n) {
      DeepIsNotTop(nodes, i, n);
    }
  }

  lemma SubtreeUnique(nodes: seq<FocusArea>, i: nat)
    requires UniqueUids(nodes) && i < |nodes|
    ensures UniqueUids(nodes[i].children)
  {
    TopsAreListed(nodes);
    SubforestOf(nodes, nodes[i]);
  }

  /** `findItemIndex`, on any assignment of indices: it finds the node unless it overlooks it. */
  method FindItemIndex(nodes: seq<FocusArea>, uid: string) returns (found: Option<int>)
    requires UniqueUids(nodes)
    ensures uid !in Uids(nodes) ==> found == None
    ensures forall n :: n in Preorder(nodes) && n.uid == uid ==>
              found == if Overlooked(nodes, n) then None else Some(n.slot.index)
    decreases nodes
  {
    ghost var passed := [];
    for i := 0 to |nodes|
      invariant passed == Preorder(nodes[..i]) && AllOverlooked(nodes, passed, uid)
    {
      var node := nodes[i];
      if node.uid == uid {
        FoundOnce(nodes, i, node);
        return Some(node.slot.index);
      }
      SubtreeUnique(nodes, i);
      if |node.children| > 0 {
        var inner := FindItemIndex(node.children, uid);
        if inner.Some? && inner.value != 0 {
          UidsArePreorder(node.children);
          var d :| d in Preorder(node.children) && d.uid == uid;
          FoundOnce(nodes, i, d);
          return inner;
        }
      }
      PassTree(nodes, i, uid);
      passed := Preorder(nodes[..i + 1]);
    }
    assert nodes[..|nodes|] == nodes;
    return None;
  }

  /** On the numbered forest nothing is overlooked: the lookup refines the preorder position. */
  method FindNumberedIndex(nodes: seq<FocusArea>, uid: string) returns (found: Option<int>)
    requires UniqueUids(nodes) && Numbered(Preorder(nodes), 1)
    ensures found == IndexOf(nodes, uid)
    ensures found == None <==> uid !in Uids(nodes)
  {
    PositionOfListed(nodes, uid);
    ghost var k := Position(Preorder(nodes), uid);
    if k < |Preorder(nodes)| {
      ghost var n := Preorder(nodes)[k];
      assert n in Preorder(nodes) && n.slot.index == 1 + k;
    }
    found := FindItemIndex(nodes, uid);
  }

  lemma PositionOfListed(areas: seq<FocusArea>, uid: string)
    ensures uid in Uids(areas) <==> Position(Preorder(areas), uid) < |Preorder(areas)|
  {
    UidsArePreorder(areas);
    var k := Position(Preorder(areas), uid);
    if k < |Preorder(areas)| {
      assert Preorder(areas)[k] in Preorder(areas);
    }
    if uid in Uids(areas) {
      var n :| n in Preorder(areas) && n.uid == uid;
      var i :| 0 <= i < |Preorder(areas)| && Preorder(areas)[i] == n;
    }
  }
}
