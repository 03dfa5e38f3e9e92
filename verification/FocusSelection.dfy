/** The selection of the focus-area popup: what a click does, and what every run of clicks keeps. */
module FocusSelection {
  import opened Sequences
  import opened FocusForest

  /** `Array.prototype.some` on the uid. */
  predicate HasUid(items: seq<FocusArea>, uid: string) {
    exists s :: s in items && s.uid == uid
  }

  ghost predicate Unrelated(areas: seq<FocusArea>, a: string, b: string) {
    !IsAncestor(areas, a, b) && !IsAncestor(areas, b, a)
  }

  /** No uid twice, and nothing selected above or below something else that is selected. */
  ghost predicate Consistent(areas: seq<FocusArea>, items: seq<FocusArea>) {
    DistinctUids(items) &&
    forall a, b :: a in items && b in items ==> !IsAncestor(areas, a.uid, b.uid)
  }

  ghost predicate InForest(areas: seq<FocusArea>, items: seq<FocusArea>) {
    forall s :: s in items ==> s in Preorder(areas)
  }

  // ----- the parents marking

  function ParentsOfAll(areas: seq<FocusArea>, items: seq<FocusArea>): seq<FocusArea> {
    if items == [] then [] else Parents(areas, items[0].uid) + ParentsOfAll(areas, items[1..])
  }

  /** The filter over a growing `Set` of uids already met. */
  function FirstOfEachUid(items: seq<FocusArea>, met: set<string>): seq<FocusArea> {
    if items == [] then []
    else if items[0].uid in met then FirstOfEachUid(items[1..], met)
    else [items[0]] + FirstOfEachUid(items[1..], met + {items[0].uid})
  }

  function AllParents(areas: seq<FocusArea>, items: seq<FocusArea>): seq<FocusArea> {
    FirstOfEachUid(ParentsOfAll(areas, items), {})
  }

  method GetAllParents(areas: seq<FocusArea>, items: seq<FocusArea>) returns (parents: seq<FocusArea>)
    ensures parents == AllParents(areas, items)
  {
    var initialParents := [];
    for i := 0 to |items|
      invariant initialParents == ParentsOfAll(areas, items[..i])
    {
      var found := FindParents(areas, items[i].uid);
      ParentsOfAllSnoc(areas, items[..i], items[i]);
      assert items[..i + 1] == items[..i] + [items[i]];
      if |found| > 0 {
        initialParents := initialParents + found;
      }
    }
    assert items[..|items|] == items;
    parents := UniqueItems(initialParents);
  }

  /** The final filter of `getAllParents`. */
  method UniqueItems(items: seq<FocusArea>) returns (kept: seq<FocusArea>)
    ensures kept == FirstOfEachUid(items, {})
  {
    var uniqueItems: set<string> := {};
    kept := [];
    for i := 0 to |items|
      invariant kept + FirstOfEachUid(items[i..], uniqueItems) == FirstOfEachUid(items, {})
    {
      assert items[i..][0] == items[i] && items[i..][1..] == items[i + 1..];
      var value := items[i].uid;
      if value !in uniqueItems {
        uniqueItems := uniqueItems + {value};
        kept := kept + [items[i]];
      }
    }
  }

  lemma {:induction false} ParentsOfAllSnoc(areas: seq<FocusArea>, items: seq<FocusArea>, last: FocusArea)
    ensures ParentsOfAll(areas, items + [last]) == ParentsOfAll(areas, items) + Parents(areas, last.uid)
  {
    if items == [] {
      assert items + [last] == [last];
      assert [last][1..] == [];
    } else {
      assert (items + [last])[1..] == items[1..] + [last];
      ParentsOfAllSnoc(areas, items[1..], last);
    }
  }

  /** One more item is kept, at the end, exactly when its uid is new. */
  lemma {:induction false} UniqueSnoc(items: seq<FocusArea>, met: set<string>, last: FocusArea)
    ensures FirstOfEachUid(items + [last], met)
            == FirstOfEachUid(items, met) + (if last.uid in met || HasUid(items, last.uid) then [] else [last])
  {
    if items == [] {
      assert items + [last] == [last] && [last][1..] == [];
    } else {
      var first, rest := items[0], items[1..];
      assert (items + [last])[0] == first && (items + [last])[1..] == rest + [last];
      assert HasUid(items, last.uid) <==> first.uid == last.uid || HasUid(rest, last.uid) by {
        assert items == [first] + rest;
      }
      UniqueSnoc(rest, if first.uid in met then met else met + {first.uid}, last);
    }
  }

  lemma {:induction false} FirstOfEachUidKeeps(items: seq<FocusArea>, met: set<string>)
    ensures DistinctUids(FirstOfEachUid(items, met))
    ensures forall p :: p in FirstOfEachUid(items, met) ==> p in items && p.uid !in met
    ensures forall p :: p in items && p.uid !in met ==> HasUid(FirstOfEachUid(items, met), p.uid)
  {
    if items != [] {
      var r := FirstOfEachUid(items, met);
      if items[0].uid in met {
        FirstOfEachUidKeeps(items[1..], met);
      } else {
        var t := FirstOfEachUid(items[1..], met + {items[0].uid});
        FirstOfEachUidKeeps(items[1..], met + {items[0].uid});
        assert r == [items[0]] + t;
        assert items[0] in r;
        forall p | p in items && p.uid !in met ensures HasUid(r, p.uid) {
          if p.uid != items[0].uid {
            assert p in items[1..];
            var q :| q in t && q.uid == p.uid;
            assert q in r;
          }
        }
      }
    }
  }

  lemma {:induction false} ParentsOfAllAre(areas: seq<FocusArea>, items: seq<FocusArea>, p: FocusArea)
    ensures p in ParentsOfAll(areas, items) <==> exists s :: s in items && p in Parents(areas, s.uid)
  {
    if items != [] {
      ParentsOfAllAre(areas, items[1..], p);
      assert items[0] in items;
    }
  }

  lemma ParentUids(areas: seq<FocusArea>, items: seq<FocusArea>, uid: string)
    requires UniqueUids(areas)
    ensures HasUid(ParentsOfAll(areas, items), uid) <==> exists s :: s in items && IsAncestor(areas, uid, s.uid)
  {
    forall s | s in items
      ensures IsAncestor(areas, uid, s.uid) <==> HasUid(Parents(areas, s.uid), uid)
    {
      ParentsAreAncestors(areas, [], uid, s.uid);
    }
    if s :| s in items && IsAncestor(areas, uid, s.uid) {
      var p :| p in Parents(areas, s.uid) && p.uid == uid;
      ParentsOfAllAre(areas, items, p);
    }
    if p :| p in ParentsOfAll(areas, items) && p.uid == uid {
      ParentsOfAllAre(areas, items, p);
    }
  }

  /** The marking is the duplicate-free set of proper ancestors of the selection, for any list of items. */
  lemma MarkedAreTheAncestors(areas: seq<FocusArea>, items: seq<FocusArea>, uid: string)
    requires UniqueUids(areas)
    ensures DistinctUids(AllParents(areas, items)) && InForest(areas, AllParents(areas, items))
    ensures HasUid(AllParents(areas, items), uid) <==> exists s :: s in items && IsAncestor(areas, uid, s.uid)
  {
    FirstOfEachUidKeeps(ParentsOfAll(areas, items), {});
    ParentUids(areas, items, uid);
    forall p | p in AllParents(areas, items) ensures p in Preorder(areas) {
      ParentsOfAllAre(areas, items, p);
      var s :| s in items && p in Parents(areas, s.uid);
      ParentsAreNodes(areas, s.uid, []);
    }
  }

  /** In a consistent selection the marking and the selection have no uid in common. */
  lemma MarkedAreNotSelected(areas: seq<FocusArea>, items: seq<FocusArea>, uid: string)
    requires UniqueUids(areas) && Consistent(areas, items)
    ensures !(HasUid(AllParents(areas, items), uid) && HasUid(items, uid))
  {
    MarkedAreTheAncestors(areas, items, uid);
  }

  // ----- a click

  function Without(items: seq<FocusArea>, uid: string): seq<FocusArea> {
    Filter(items, (s: FocusArea) => s.uid != uid)
  }

  ghost function UnrelatedTo(areas: seq<FocusArea>, items: seq<FocusArea>, uid: string): seq<FocusArea> {
    Filter(items, (s: FocusArea) => Unrelated(areas, s.uid, uid))
  }

  function IdsToRemove(areas: seq<FocusArea>, item: FocusArea): seq<FocusArea> {
    Parents(areas, item.uid) + Descendants(item)
  }

  /** The selection after a click on `item`. */
  function Click(areas: seq<FocusArea>, items: seq<FocusArea>, item: FocusArea): seq<FocusArea> {
    if HasUid(items, item.uid) then
      Without(items, item.uid)
    else
      Filter(items, (s: FocusArea) => !HasUid(IdsToRemove(areas, item), s.uid)) + [item]
  }

  function Run(areas: seq<FocusArea>, items: seq<FocusArea>, clicks: seq<FocusArea>): seq<FocusArea>
    decreases |clicks|
  {
    if clicks == [] then items else Run(areas, Click(areas, items, clicks[0]), clicks[1..])
  }

  /** The uids a click removes are exactly those of the ancestors and the descendants of the clicked node. */
  lemma RemovedAreRelated(areas: seq<FocusArea>, item: FocusArea, uid: string)
    requires UniqueUids(areas) && item in Preorder(areas)
    ensures HasUid(IdsToRemove(areas, item), uid) <==> !Unrelated(areas, uid, item.uid)
  {
    var above, below := Parents(areas, item.uid), Descendants(item);
    assert forall p :: p in above + below <==> p in above || p in below;
    ParentsAreAncestors(areas, [], uid, item.uid);
    UidsArePreorder(item.children);
    if IsAncestor(areas, item.uid, uid) {
      var n :| n in Preorder(areas) && n.uid == item.uid && uid in Uids(n.children);
      SameUidSameNode(areas, n, item);
    }
    if p :| p in above && p.uid == uid { assert p in above + below; }
    if d :| d in below && d.uid == uid { assert d in above + below; }
  }

  /** A click keeps, in order, every selected item unrelated to the clicked node, and nothing else. */
  lemma ClickKeepsUnrelated(areas: seq<FocusArea>, items: seq<FocusArea>, item: FocusArea)
    requires UniqueUids(areas) && item in Preorder(areas)
    ensures HasUid(items, item.uid) ==>
              Click(areas, items, item) == Without(items, item.uid)
    ensures !HasUid(items, item.uid) ==>
              Click(areas, items, item) == UnrelatedTo(areas, items, item.uid) + [item]
  {
    forall s | s in items
      ensures HasUid(IdsToRemove(areas, item), s.uid) <==> !Unrelated(areas, s.uid, item.uid)
    {
      RemovedAreRelated(areas, item, s.uid);
    }
    FilterSame(items, (s: FocusArea) => !HasUid(IdsToRemove(areas, item), s.uid),
                      (s: FocusArea) => Unrelated(areas, s.uid, item.uid));
  }

  lemma {:induction false} FilterDistinctUids(items: seq<FocusArea>, keep: FocusArea -> bool)
    requires DistinctUids(items)
    ensures DistinctUids(Filter(items, keep))
  {
    if items != [] {
      assert DistinctUids(items[1..]);
      FilterDistinctUids(items[1..], keep);
      assert forall x :: x in Filter(items[1..], keep) ==> x.uid != items[0].uid;
    }
  }

  lemma {:induction false} NotOwnAncestor(areas: seq<FocusArea>, uid: string)
    requires UniqueUids(areas)
    ensures !IsAncestor(areas, uid, uid)
  {
    if areas != [] {
      UniqueParts(areas);
      AncestorParts(areas, uid, uid);
      NotOwnAncestor(areas[0].children, uid);
      NotOwnAncestor(areas[1..], uid);
    }
  }

  lemma RemovingKeepsConsistent(areas: seq<FocusArea>, items: seq<FocusArea>, uid: string)
    requires Consistent(areas, items)
    ensures Consistent(areas, Without(items, uid)) && !HasUid(Without(items, uid), uid)
  {
    FilterDistinctUids(items, (s: FocusArea) => s.uid != uid);
  }

  lemma AddingKeepsConsistent(areas: seq<FocusArea>, items: seq<FocusArea>, item: FocusArea)
    requires UniqueUids(areas) && Consistent(areas, items) && !HasUid(items, item.uid)
    ensures Consistent(areas, UnrelatedTo(areas, items, item.uid) + [item])
  {
    var kept := UnrelatedTo(areas, items, item.uid);
    FilterDistinctUids(items, (s: FocusArea) => Unrelated(areas, s.uid, item.uid));
    NotOwnAncestor(areas, item.uid);
    assert forall s :: s in kept ==> s in items && Unrelated(areas, s.uid, item.uid);
    assert forall s :: s in kept + [item] <==> s in kept || s == item;
  }

  /** A click keeps the selection consistent, and toggles the clicked node. */
  lemma ClickKeepsConsistent(areas: seq<FocusArea>, items: seq<FocusArea>, item: FocusArea)
    requires UniqueUids(areas) && item in Preorder(areas) && Consistent(areas, items)
    ensures Consistent(areas, Click(areas, items, item))
    ensures HasUid(Click(areas, items, item), item.uid) <==> !HasUid(items, item.uid)
    ensures InForest(areas, items) ==> InForest(areas, Click(areas, items, item))
  {
    ClickKeepsUnrelated(areas, items, item);
    if HasUid(items, item.uid) {
      RemovingKeepsConsistent(areas, items, item.uid);
    } else {
      AddingKeepsConsistent(areas, items, item);
      var r := Click(areas, items, item);
      assert r[|r| - 1] == item && item in r;
    }
  }

  // ----- runs of clicks

  /** Every run from a consistent selection (the empty one, say) stays consistent. */
  lemma {:induction false} RunsStayConsistent(areas: seq<FocusArea>, items: seq<FocusArea>, clicks: seq<FocusArea>)
    requires UniqueUids(areas) && InForest(areas, clicks) && Consistent(areas, items)
    ensures Consistent(areas, Run(areas, items, clicks))
    ensures InForest(areas, items) ==> InForest(areas, Run(areas, items, clicks))
    decreases |clicks|
  {
    if clicks != [] {
      ClickKeepsConsistent(areas, items, clicks[0]);
      RunsStayConsistent(areas, Click(areas, items, clicks[0]), clicks[1..]);
    }
  }

  /** A click on a node unrelated to everything selected appends it. */
  lemma ClickAppends(areas: seq<FocusArea>, items: seq<FocusArea>, item: FocusArea)
    requires UniqueUids(areas) && item in Preorder(areas)
    requires forall s :: s in items ==> s.uid != item.uid && Unrelated(areas, s.uid, item.uid)
    ensures Click(areas, items, item) == items + [item]
  {
    ClickKeepsUnrelated(areas, items, item);
    FilterKeepsAll(items, (s: FocusArea) => Unrelated(areas, s.uid, item.uid));
  }

  lemma ConsistentPrefix(areas: seq<FocusArea>, done: seq<FocusArea>, item: FocusArea, rest: seq<FocusArea>)
    requires Consistent(areas, done + [item] + rest)
    ensures forall s :: s in done ==> s.uid != item.uid && Unrelated(areas, s.uid, item.uid)
  {
    var all := done + [item] + rest;
    assert item == all[|done|] && item in all;
    forall s | s in done ensures s.uid != item.uid && Unrelated(areas, s.uid, item.uid) {
      var i :| 0 <= i < |done| && done[i] == s;
      assert all[i] == s;
    }
  }

  /** Clicking the members of a consistent selection in order, from nothing, builds exactly that selection. */
  lemma {:induction false} ClickingBuilds(areas: seq<FocusArea>, done: seq<FocusArea>, todo: seq<FocusArea>)
    requires UniqueUids(areas) && InForest(areas, todo) && Consistent(areas, done + todo)
    ensures Run(areas, done, todo) == done + todo
    decreases |todo|
  {
    if todo == [] {
      assert done + todo == done;
    } else {
      assert done + todo == done + [todo[0]] + todo[1..];
      assert todo[0] in todo;
      ConsistentPrefix(areas, done, todo[0], todo[1..]);
      ClickAppends(areas, done, todo[0]);
      ClickingBuilds(areas, done + [todo[0]], todo[1..]);
    }
  }

  /** The reachable selections are exactly the consistent ones. */
  lemma ReachableSelections(areas: seq<FocusArea>, items: seq<FocusArea>)
    requires UniqueUids(areas)
    ensures (exists clicks :: InForest(areas, clicks) && Run(areas, [], clicks) == items) <==>
            InForest(areas, items) && Consistent(areas, items)
  {
    if InForest(areas, items) && Consistent(areas, items) {
      assert [] + items == items;
      ClickingBuilds(areas, [], items);
    }
    if clicks :| InForest(areas, clicks) && Run(areas, [], clicks) == items {
      RunsStayConsistent(areas, [], clicks);
    }
  }

  lemma {:induction false} RemoveOnly(items: seq<FocusArea>, item: FocusArea)
    requires DistinctUids(items + [item])
    ensures Without(items + [item], item.uid) == items
  {
    var others := (s: FocusArea) => s.uid != item.uid;
    assert (items + [item])[|items|] == item;
    forall s | s in items ensures others(s) {
      var i :| 0 <= i < |items| && items[i] == s;
      assert (items + [item])[i] == s;
    }
    FilterAppend(items, [item], others);
    FilterKeepsAll(items, others);
    assert Filter([item], others) == [];
  }

  lemma RunTwo(areas: seq<FocusArea>, items: seq<FocusArea>, a: FocusArea, b: FocusArea)
    ensures Run(areas, items, [a, b]) == Click(areas, Click(areas, items, a), b)
  {
    var once := Click(areas, items, a);
    assert [a, b][1..] == [b] && [b][1..] == [];
    assert Run(areas, items, [a, b]) == Run(areas, once, [b]);
    assert Run(areas, once, [b]) == Run(areas, Click(areas, once, b), []);
  }

  /** A second click on an item that was not selected leaves what the first click had left of the others. */
  lemma ClickTwiceFromOff(areas: seq<FocusArea>, items: seq<FocusArea>, item: FocusArea)
    requires UniqueUids(areas) && item in Preorder(areas) && Consistent(areas, items) && !HasUid(items, item.uid)
    ensures Run(areas, items, [item, item]) == UnrelatedTo(areas, items, item.uid)
  {
    RunTwo(areas, items, item, item);
    ClickKeepsUnrelated(areas, items, item);
    ClickKeepsConsistent(areas, items, item);
    var kept := UnrelatedTo(areas, items, item.uid);
    assert item in kept + [item];
    ClickKeepsUnrelated(areas, kept + [item], item);
    RemoveOnly(kept, item);
  }

  /** A second click on a selected item moves it to the end of the selection. */
  lemma ClickTwiceFromOn(areas: seq<FocusArea>, items: seq<FocusArea>, item: FocusArea)
    requires UniqueUids(areas) && item in Preorder(areas) && Consistent(areas, items) && HasUid(items, item.uid)
    ensures Run(areas, items, [item, item]) == Without(items, item.uid) + [item]
  {
    RunTwo(areas, items, item, item);
    ClickKeepsUnrelated(areas, items, item);
    var s :| s in items && s.uid == item.uid;
    ClickAppends(areas, Without(items, item.uid), item);
  }

  /** Two clicks on the same node change nothing exactly when the first removed no relative, or moved nothing. */
  lemma ClickTwice(areas: seq<FocusArea>, items: seq<FocusArea>, item: FocusArea)
    requires UniqueUids(areas) && item in Preorder(areas) && Consistent(areas, items)
    ensures Run(areas, items, [item, item]) == items <==>
            if HasUid(items, item.uid) then items[|items| - 1] == item
            else forall s :: s in items ==> Unrelated(areas, s.uid, item.uid)
  {
    if HasUid(items, item.uid) {
      ClickTwiceFromOn(areas, items, item);
      LastStays(items, item);
    } else {
      ClickTwiceFromOff(areas, items, item);
      FilterIsWhole(items, (s: FocusArea) => Unrelated(areas, s.uid, item.uid));
    }
  }

  lemma LastStays(items: seq<FocusArea>, item: FocusArea)
    requires DistinctUids(items) && items != []
    ensures Without(items, item.uid) + [item] == items <==> items[|items| - 1] == item
  {
    var others := Without(items, item.uid);
    if items[|items| - 1] == item {
      assert items == items[..|items| - 1] + [item];
      RemoveOnly(items[..|items| - 1], item);
    } else {
      assert (others + [item])[|others|] == item;
    }
  }

  // ----- the description of a root

  /** What `getDesc` lists: the descendants of a node whose uid is selected. */
  function Matched(items: seq<FocusArea>, node: FocusArea): seq<FocusArea> {
    Filter(Descendants(node), (d: FocusArea) => HasUid(items, d.uid))
  }

  /** A node carries the parents marking exactly when its description matches something. */
  lemma MarkedWhenMatched(areas: seq<FocusArea>, items: seq<FocusArea>, node: FocusArea)
    requires UniqueUids(areas) && node in Preorder(areas)
    ensures HasUid(AllParents(areas, items), node.uid) <==> Matched(items, node) != []
  {
    MarkedAreTheAncestors(areas, items, node.uid);
    UidsArePreorder(node.children);
    if s :| s in items && IsAncestor(areas, node.uid, s.uid) {
      var n :| n in Preorder(areas) && n.uid == node.uid && s.uid in Uids(n.children);
      SameUidSameNode(areas, n, node);
      var d :| d in Descendants(node) && d.uid == s.uid;
      assert d in Matched(items, node);
    }
    if Matched(items, node) != [] {
      var d := Matched(items, node)[0];
      assert d in Matched(items, node);
      var s :| s in items && s.uid == d.uid;
      assert IsAncestor(areas, node.uid, s.uid);
    }
  }

  /** Root by root: the root itself when it is selected, then what its description lists. */
  function ListedUnder(areas: seq<FocusArea>, items: seq<FocusArea>): seq<FocusArea> {
    if areas == [] then []
    else (if HasUid(items, areas[0].uid) then [areas[0]] else []) + Matched(items, areas[0])
         + ListedUnder(areas[1..], items)
  }

  /** The selected roots and the descriptions of all roots together list the selection, each item once. */
  lemma DescriptionsCoverSelection(areas: seq<FocusArea>, items: seq<FocusArea>)
    requires UniqueUids(areas) && Consistent(areas, items) && InForest(areas, items)
    ensures multiset(ListedUnder(areas, items)) == multiset(items)
  {
    var selected := (d: FocusArea) => HasUid(items, d.uid);
    ListedUnderIsFilter(areas, items);
    FilterNoRepeats(Preorder(areas), selected);
    forall d | d in Filter(Preorder(areas), selected) ensures d in items {
      var s :| s in items && s.uid == d.uid;
      SameUidSameNode(areas, s, d);
    }
    SameElementsSameMultiset(Filter(Preorder(areas), selected), items);
  }

  lemma {:induction false} ListedUnderIsFilter(areas: seq<FocusArea>, items: seq<FocusArea>)
    ensures ListedUnder(areas, items) == Filter(Preorder(areas), (d: FocusArea) => HasUid(items, d.uid))
  {
    if areas != [] {
      var selected := (d: FocusArea) => HasUid(items, d.uid);
      ListedUnderIsFilter(areas[1..], items);
      FilterAppend([areas[0]] + Preorder(areas[0].children), Preorder(areas[1..]), selected);
      FilterAppend([areas[0]], Preorder(areas[0].children), selected);
    }
  }

  // ----- the popup component

  class FocusAreas {
    const focusAreas: seq<FocusArea>
    var selectedItems: seq<FocusArea>
    var parents: seq<FocusArea>

    /** The state every render sees; `selectedItems` may have come from the server. */
    ghost predicate Valid()
      reads this
    {
      && UniqueUids(focusAreas)
      && Consistent(focusAreas, selectedItems)
      && parents == AllParents(focusAreas, selectedItems)
    }

    constructor (focusAreas: seq<FocusArea>, selectedItems: seq<FocusArea>)
      ensures this.focusAreas == focusAreas && this.selectedItems == selectedItems
      ensures parents == AllParents(focusAreas, selectedItems)
    {
      this.focusAreas := focusAreas;
      this.selectedItems := selectedItems;
      new;
      parents := GetAllParents(focusAreas, selectedItems);
    }

    method OnItemClickHandler(item: FocusArea)
      modifies this
      ensures selectedItems == Click(focusAreas, old(selectedItems), item)
      ensures parents == AllParents(focusAreas, selectedItems)
      ensures old(Valid()) && item in Preorder(focusAreas) ==> Valid()
    {
      var hasItem := HasUid(selectedItems, item.uid);
      if hasItem {
        var updatedSelectedItems := Without(selectedItems, item.uid);
        parents := GetAllParents(focusAreas, updatedSelectedItems);
        selectedItems := updatedSelectedItems;
      } else {
        var childrens := FindChildrens(item);
        var above := FindParents(focusAreas, item.uid);
        var toRemove := above + childrens;
        var updatedSelectedItems := Filter(selectedItems, (s: FocusArea) => !HasUid(toRemove, s.uid));
        updatedSelectedItems := updatedSelectedItems + [item];
        parents := GetAllParents(focusAreas, updatedSelectedItems);
        selectedItems := updatedSelectedItems;
      }
      if old(Valid()) && item in Preorder(focusAreas) {
        ClickKeepsConsistent(focusAreas, old(selectedItems), item);
      }
    }

    method GetDesc(item: FocusArea) returns (text: string)
      ensures text == Join(Map(Matched(selectedItems, item), (d: FocusArea) => d.title), ", ")
    {
      var childrens := FindChildrens(item);
      var selected := selectedItems;
      var matchedChildren := Filter(childrens, (d: FocusArea) => HasUid(selected, d.uid));
      text := Join(Map(matchedChildren, (d: FocusArea) => d.title), ", ");
    }
  }
}
