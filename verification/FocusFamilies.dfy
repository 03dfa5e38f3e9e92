/** Which items of a selection share a card: when the cards are the families of siblings. */
module FocusFamilies {
  import opened Sequences
  import opened FocusForest
  import opened FocusSelection
  import opened FocusCards

  // ----- what the path of titles tells

  /** No ` > ` in the title, and none that would begin in it and end in the separator put behind it. */
  predicate Separable(title: string) {
    forall i :: 0 <= i < |title| - 1 ==>
      !(title[i] == ' ' && title[i + 1] == '>' && (i + 2 < |title| ==> title[i + 2] == ' '))
  }

  ghost predicate AllSeparable(areas: seq<FocusArea>) {
    forall x :: x in Preorder(areas) ==> Separable(x.title)
  }

  lemma JoinStarts(parts: seq<string>)
    requires parts != []
    ensures var s, n := Join(parts, " > "), |parts[0]|;
            && n <= |s| && s[..n] == parts[0]
            && (|parts| == 1 ==> n == |s|)
            && (|parts| > 1 ==> n + 3 <= |s| && s[n] == ' ' && s[n + 1] == '>' && s[n + 2] == ' '
                                && s[n + 3..] == Join(parts[1..], " > "))
  {
  }

  lemma FirstPartFits(a: seq<string>, b: seq<string>)
    requires a != [] && b != [] && Join(a, " > ") == Join(b, " > ") && Separable(b[0])
    ensures |a[0]| >= |b[0]|
  {
    JoinStarts(a);
    JoinStarts(b);
    assert forall k :: 0 <= k < |b[0]| ==> b[0][k] == Join(b, " > ")[..|b[0]|][k] == Join(a, " > ")[k];
  }

  lemma {:induction false} JoinTells(a: seq<string>, b: seq<string>)
    requires a != [] && b != [] && Join(a, " > ") == Join(b, " > ")
    requires forall t :: t in a || t in b ==> Separable(t)
    ensures a == b
    decreases |a|
  {
    FirstPartFits(a, b);
    FirstPartFits(b, a);
    JoinStarts(a);
    JoinStarts(b);
    assert a[0] == b[0];
    if |a| > 1 {
      JoinTells(a[1..], b[1..]);
      assert a == [a[0]] + a[1..] && b == [b[0]] + b[1..];
    }
  }

  lemma {:induction false} ReverseAt<T>(s: seq<T>, k: nat)
    requires k < |s|
    ensures |Reverse(s)| == |s| && Reverse(s)[k] == s[|s| - 1 - k]
  {
    if |s| > 1 {
      ReverseAt(s[1..], if k < |s| - 1 then k else 0);
    }
  }

  lemma ReverseTells<T>(a: seq<T>, b: seq<T>)
    requires a != [] && b != [] && Reverse(a) == Reverse(b)
    ensures a == b
  {
    ReverseAt(a, 0);
    ReverseAt(b, 0);
    forall k | 0 <= k < |a| ensures a[k] == b[k] {
      ReverseAt(a, |a| - 1 - k);
      ReverseAt(b, |a| - 1 - k);
    }
  }

  function TitlesOf(nodes: seq<FocusArea>): seq<string> {
    Map(nodes, (p: FocusArea) => p.title)
  }

  lemma SeparableReversed(areas: seq<FocusArea>, nodes: seq<FocusArea>)
    requires AllSeparable(areas) && nodes != [] && forall p :: p in nodes ==> p in Preorder(areas)
    ensures Reverse(TitlesOf(nodes)) != [] && forall t :: t in Reverse(TitlesOf(nodes)) ==> Separable(t)
  {
    var titles := TitlesOf(nodes);
    ReverseAt(titles, 0);
    forall k | 0 <= k < |Reverse(titles)| ensures Separable(Reverse(titles)[k]) {
      ReverseAt(titles, k);
      assert nodes[|titles| - 1 - k] in nodes;
    }
  }

  /** Equal paths come from equal titles. */
  lemma PathTellsTitles(areas: seq<FocusArea>, a: FocusArea, b: FocusArea)
    requires AllSeparable(areas) && a in Preorder(areas) && b in Preorder(areas)
    requires PathOf(areas, a) == PathOf(areas, b)
    ensures TitlesOf(NewParents(areas, a)) == TitlesOf(NewParents(areas, b))
  {
    var above, above' := NewParents(areas, a), NewParents(areas, b);
    ParentsAreNodes(areas, a.uid, []);
    ParentsAreNodes(areas, b.uid, []);
    SeparableReversed(areas, above);
    SeparableReversed(areas, above');
    JoinTells(Reverse(TitlesOf(above)), Reverse(TitlesOf(above')));
    ReverseTells(TitlesOf(above), TitlesOf(above'));
  }

  // ----- what titles tell

  /** Of these siblings, those with something below them have different titles. */
  ghost predicate TitlesTell(siblings: seq<FocusArea>) {
    forall x, y :: x in siblings && y in siblings && x.children != [] && y.children != [] && x.title == y.title ==>
      x == y
  }

  ghost predicate TitlesTellBelow(areas: seq<FocusArea>) {
    forall n :: n in Preorder(areas) ==> TitlesTell(n.children)
  }

  ghost predicate RootTitlesTell(areas: seq<FocusArea>) {
    forall x, y :: x in areas && y in areas && x.title == y.title ==> x == y
  }

  /** Different items, neither above the other, share a card exactly when they share their parents. */
  ghost predicate CardsAreFamilies(areas: seq<FocusArea>) {
    forall a, b :: a in Preorder(areas) && b in Preorder(areas) && a != b && Unrelated(areas, a.uid, b.uid) ==>
      (PathOf(areas, a) == PathOf(areas, b) <==> SameFamily(areas, a, b))
  }

  ghost predicate SameFamily(areas: seq<FocusArea>, a: FocusArea, b: FocusArea) {
    Parents(areas, a.uid) == Parents(areas, b.uid) != []
  }

  lemma {:induction false} RootIsListed(areas: seq<FocusArea>, root: FocusArea)
    requires root in areas
    ensures root in Preorder(areas) && root.uid in Uids(areas)
  {
    if root != areas[0] {
      RootIsListed(areas[1..], root);
    }
  }

  lemma TitlesTail(a: seq<FocusArea>, b: seq<FocusArea>)
    requires a != [] && TitlesOf(a) == TitlesOf(b)
    ensures b != [] && a[0].title == b[0].title && TitlesOf(a[1..]) == TitlesOf(b[1..])
  {
    assert |TitlesOf(a)| == |TitlesOf(b)|;
    assert TitlesOf(a)[0] == a[0].title && TitlesOf(b)[0] == b[0].title;
    assert TitlesOf(a)[1..] == TitlesOf(a[1..]) && TitlesOf(b)[1..] == TitlesOf(b[1..]);
  }

  /** Where inner siblings have different titles, a path of titles is the path of one list of nodes. */
  lemma {:induction false} TitlesTellPath(
      areas: seq<FocusArea>, path: seq<FocusArea>, path': seq<FocusArea>, uid: string, uid': string)
    requires TitlesTell(areas) && TitlesTellBelow(areas)
    requires IsPathTo(areas, path, uid) && IsPathTo(areas, path', uid') && TitlesOf(path) == TitlesOf(path')
    ensures path == path'
    decreases |path|
  {
    if path == [] {
      assert |TitlesOf(path')| == 0;
    } else {
      TitlesTail(path, path');
      var below := path[0].children;
      PathsLeadToListed(below, path[1..], uid);
      PathsLeadToListed(path'[0].children, path'[1..], uid');
      assert path[0] == path'[0];
      RootIsListed(areas, path[0]);
      SubforestOf(areas, path[0]);
      TitlesTellPath(below, path[1..], path'[1..], uid, uid');
      assert path == [path[0]] + path[1..] && path' == [path'[0]] + path'[1..];
    }
  }

  lemma NotAbove(areas: seq<FocusArea>, a: FocusArea, b: FocusArea)
    requires UniqueUids(areas) && Unrelated(areas, a.uid, b.uid)
    ensures a !in Parents(areas, b.uid)
  {
    ParentsAreAncestors(areas, [], a.uid, b.uid);
  }

  lemma RootOfPath(areas: seq<FocusArea>, a: FocusArea)
    requires UniqueUids(areas) && a in Preorder(areas)
    ensures IsPathTo(areas, Parents(areas, a.uid), a.uid)
    ensures NewParents(areas, a)[0] in areas
  {
    UidsArePreorder(areas);
    ParentsIsAPath(areas, a.uid);
    if Parents(areas, a.uid) == [] {
      var root :| root in areas && root.uid == a.uid;
      RootIsListed(areas, root);
      SameUidSameNode(areas, root, a);
    }
  }

  lemma TitlesTellFamilies(areas: seq<FocusArea>, a: FocusArea, b: FocusArea)
    requires UniqueUids(areas) && AllSeparable(areas) && RootTitlesTell(areas) && TitlesTellBelow(areas)
    requires a in Preorder(areas) && b in Preorder(areas) && a != b && Unrelated(areas, a.uid, b.uid)
    requires PathOf(areas, a) == PathOf(areas, b)
    ensures SameFamily(areas, a, b)
  {
    PathTellsTitles(areas, a, b);
    RootOfPath(areas, a);
    RootOfPath(areas, b);
    TitlesTail(NewParents(areas, a), NewParents(areas, b));
    NotAbove(areas, a, b);
    NotAbove(areas, b, a);
    assert NewParents(areas, a)[0] == NewParents(areas, b)[0];
    if Parents(areas, a.uid) != [] && Parents(areas, b.uid) != [] {
      TitlesTellPath(areas, Parents(areas, a.uid), Parents(areas, b.uid), a.uid, b.uid);
    }
  }

  // ----- where titles do not tell

  lemma ListedBelow(areas: seq<FocusArea>, root: FocusArea, n: FocusArea)
    requires UniqueUids(areas) && root in areas && n in Preorder(areas) && n.uid in Uids(root.children)
    ensures UniqueUids(root.children) && n in Preorder(root.children)
  {
    RootIsListed(areas, root);
    SubforestOf(areas, root);
    UidsArePreorder(root.children);
    var m :| m in Preorder(root.children) && m.uid == n.uid;
    SameUidSameNode(areas, m, n);
  }

  lemma {:induction false} PathThrough(areas: seq<FocusArea>, path: seq<FocusArea>, n: FocusArea, child: FocusArea)
    requires UniqueUids(areas) && n in Preorder(areas) && IsPathTo(areas, path, n.uid) && child in n.children
    ensures IsPathTo(areas, path + [n], child.uid)
    decreases |path|
  {
    if path == [] {
      var root :| root in areas && root.uid == n.uid;
      RootIsListed(areas, root);
      SameUidSameNode(areas, root, n);
      assert ([] + [n])[1..] == [];
    } else {
      PathsLeadToListed(path[0].children, path[1..], n.uid);
      ListedBelow(areas, path[0], n);
      PathThrough(path[0].children, path[1..], n, child);
      PathBelow(areas, path[0], path[1..] + [n], child.uid);
      assert path + [n] == [path[0]] + (path[1..] + [n]);
    }
  }

  /** The nodes above a child are those above its parent, and the parent. */
  lemma ParentsOfChild(areas: seq<FocusArea>, n: FocusArea, child: FocusArea)
    requires UniqueUids(areas) && n in Preorder(areas) && child in n.children
    ensures child in Preorder(areas) && Parents(areas, child.uid) == Parents(areas, n.uid) + [n]
  {
    UidsArePreorder(areas);
    ParentsIsAPath(areas, n.uid);
    PathThrough(areas, Parents(areas, n.uid), n, child);
    SubforestOf(areas, n);
    RootIsListed(n.children, child);
    ParentsIsThePath(areas, Parents(areas, n.uid) + [n], child.uid);
  }

  lemma ParentsOfRoot(areas: seq<FocusArea>, root: FocusArea)
    requires UniqueUids(areas) && root in areas
    ensures root in Preorder(areas) && Parents(areas, root.uid) == []
  {
    RootIsListed(areas, root);
    ParentsIsThePath(areas, [], root.uid);
  }

  lemma NotOwnParent(areas: seq<FocusArea>, x: FocusArea)
    requires UniqueUids(areas)
    ensures x !in Parents(areas, x.uid)
  {
    NotOwnAncestor(areas, x.uid);
    ParentsAreAncestors(areas, [], x.uid, x.uid);
  }

  /** What is below `x` is not below anything whose parents do not include `x`. */
  lemma NotBelow(areas: seq<FocusArea>, x: FocusArea, a: FocusArea, b: FocusArea)
    requires UniqueUids(areas) && x in Preorder(areas) && a in Preorder(areas) && b in Preorder(areas)
    requires x in Parents(areas, a.uid) && x !in Parents(areas, b.uid)
    ensures a !in Parents(areas, b.uid)
  {
    if a in Parents(areas, b.uid) {
      Duality(areas, a, b);
      Duality(areas, x, a);
      Duality(areas, x, b);
      SubforestOf(x.children, a);
    }
  }

  lemma NotInParents(areas: seq<FocusArea>, a: FocusArea, b: FocusArea)
    requires UniqueUids(areas) && a in Preorder(areas) && b in Preorder(areas)
    requires a !in Parents(areas, b.uid) && b !in Parents(areas, a.uid)
    ensures Unrelated(areas, a.uid, b.uid)
  {
    Duality(areas, a, b);
    Duality(areas, b, a);
    AncestorByNode(areas, a, b);
    AncestorByNode(areas, b, a);
  }

  lemma {:induction false} ReverseSnoc<T>(s: seq<T>, last: T)
    ensures Reverse(s + [last]) == [last] + Reverse(s)
  {
    if s == [] {
      assert s + [last] == [last] && [last][1..] == [];
    } else {
      assert (s + [last])[1..] == s[1..] + [last];
      ReverseSnoc(s[1..], last);
    }
  }

  lemma PathOfRoot(areas: seq<FocusArea>, root: FocusArea)
    requires UniqueUids(areas) && root in areas
    ensures PathOf(areas, root) == root.title
  {
    ParentsOfRoot(areas, root);
    ReverseSnoc([], root.title);
    assert TitlesOf([root]) == [root.title] == [] + [root.title];
  }

  /** The path of a child is its parent's title, followed by the parent's own path unless that is a root. */
  lemma PathOfChild(areas: seq<FocusArea>, n: FocusArea, child: FocusArea)
    requires UniqueUids(areas) && n in Preorder(areas) && child in n.children
    ensures PathOf(areas, child) == if n in areas then n.title else n.title + " > " + PathOf(areas, n)
  {
    ParentsOfChild(areas, n, child);
    var above := Parents(areas, n.uid);
    MapAppend(above, [n], (p: FocusArea) => p.title);
    assert TitlesOf([n]) == [n.title];
    ReverseSnoc(TitlesOf(above), n.title);
    if n in areas {
      ParentsOfRoot(areas, n);
    } else {
      RootOfPath(areas, n);
      var titles := Reverse(TitlesOf(above));
      ReverseAt(TitlesOf(above), 0);
      assert ([n.title] + titles)[1..] == titles;
    }
  }

  /** Children of two siblings of one title: one card, two families. */
  lemma CousinsCollide(areas: seq<FocusArea>, x: FocusArea, y: FocusArea, a: FocusArea, b: FocusArea)
    requires UniqueUids(areas) && x in Preorder(areas) && y in Preorder(areas) && x != y && x.title == y.title
    requires Parents(areas, x.uid) == Parents(areas, y.uid) && a in x.children && b in y.children
    ensures a in Preorder(areas) && b in Preorder(areas) && a != b && Unrelated(areas, a.uid, b.uid)
    ensures PathOf(areas, a) == PathOf(areas, b) && !SameFamily(areas, a, b)
  {
    ParentsOfChild(areas, x, a);
    ParentsOfChild(areas, y, b);
    NotOwnParent(areas, x);
    NotOwnParent(areas, y);
    NotBelow(areas, x, a, b);
    NotBelow(areas, y, b, a);
    NotInParents(areas, a, b);
    var above := Parents(areas, x.uid);
    MapAppend(above, [x], (p: FocusArea) => p.title);
    MapAppend(above, [y], (p: FocusArea) => p.title);
    assert TitlesOf([x]) == TitlesOf([y]) == [x.title];
  }

  /** At a root, the item itself or its first child gets the root's title as its path. */
  lemma RootCard(areas: seq<FocusArea>, x: FocusArea) returns (a: FocusArea)
    requires UniqueUids(areas) && x in areas
    ensures a in Preorder(areas) && NewParents(areas, a) == [x]
    ensures (a == x && Parents(areas, a.uid) == []) || (a in x.children && Parents(areas, a.uid) == [x])
  {
    ParentsOfRoot(areas, x);
    if x.children == [] {
      a := x;
    } else {
      a := x.children[0];
      ParentsOfChild(areas, x, a);
    }
  }

  lemma RootsCollide(areas: seq<FocusArea>, x: FocusArea, y: FocusArea) returns (a: FocusArea, b: FocusArea)
    requires UniqueUids(areas) && x in areas && y in areas && x != y && x.title == y.title
    ensures a in Preorder(areas) && b in Preorder(areas) && a != b && Unrelated(areas, a.uid, b.uid)
    ensures PathOf(areas, a) == PathOf(areas, b) && !SameFamily(areas, a, b)
  {
    a := RootCard(areas, x);
    b := RootCard(areas, y);
    ParentsOfRoot(areas, x);
    ParentsOfRoot(areas, y);
    assert a != y && b != x;
    NotInParents(areas, a, b);
    assert TitlesOf([x]) == TitlesOf([y]) == [x.title];
  }

  /**
   With titles that the separator keeps apart, the cards are the families of siblings, roots on their own,
   exactly when no two roots and no two siblings with something below them have the same title.
   */
  lemma CardsAreFamiliesWhen(areas: seq<FocusArea>)
    requires UniqueUids(areas) && AllSeparable(areas)
    ensures CardsAreFamilies(areas) <==> RootTitlesTell(areas) && TitlesTellBelow(areas)
  {
    if RootTitlesTell(areas) && TitlesTellBelow(areas) {
      forall a, b | a in Preorder(areas) && b in Preorder(areas) && a != b && Unrelated(areas, a.uid, b.uid)
        ensures PathOf(areas, a) == PathOf(areas, b) <==> SameFamily(areas, a, b)
      {
        if PathOf(areas, a) == PathOf(areas, b) { TitlesTellFamilies(areas, a, b); }
      }
    } else if !RootTitlesTell(areas) {
      var x, y :| x in areas && y in areas && x.title == y.title && x != y;
      var a, b := RootsCollide(areas, x, y);
    } else {
      var n :| n in Preorder(areas) && !TitlesTell(n.children);
      var x, y :| x in n.children && y in n.children && x.children != [] && y.children != [] &&
                  x.title == y.title && x != y;
      ParentsOfChild(areas, n, x);
      ParentsOfChild(areas, n, y);
      CousinsCollide(areas, x, y, x.children[0], y.children[0]);
    }
  }

  lemma OneChild(root: FocusArea, child: FocusArea)
    requires root.children == [child] && child.children == []
    ensures Preorder([root]) == [root, child]
  {
    assert [root][1..] == [] && [child][1..] == [];
    assert Preorder([child]) == [child];
  }

  /** Such a forest: two roots titled `t` with a child each; the children, of different parents, share a card. */
  lemma TitlesCollide(slot: IndexSlot)
    ensures var c, d := FocusArea("c", "x", [], slot), FocusArea("d", "y", [], slot);
            var areas := [FocusArea("a", "t", [c], slot), FocusArea("b", "t", [d], slot)];
            && UniqueUids(areas) && Parents(areas, "c") == [areas[0]] && Parents(areas, "d") == [areas[1]]
            && PathOf(areas, c) == PathOf(areas, d)
  {
    var c, d := FocusArea("c", "x", [], slot), FocusArea("d", "y", [], slot);
    var a, b := FocusArea("a", "t", [c], slot), FocusArea("b", "t", [d], slot);
    var areas := [a, b];
    assert areas == [a] + [b];
    PreorderAppend([a], [b]);
    OneChild(a, c);
    OneChild(b, d);
    assert Preorder(areas) == [a, c, b, d];
    ParentsOfRoot(areas, a);
    ParentsOfRoot(areas, b);
    ParentsOfChild(areas, a, c);
    ParentsOfChild(areas, b, d);
    CousinsCollide(areas, a, b, c, d);
  }
}
