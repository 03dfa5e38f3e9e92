/** The focus-area list view: one card per path of the selection, in forest order. */
module FocusCards {
  import opened Sequences
  import opened Sorting
  import opened FocusForest
  import opened FocusIndex

  datatype Card = Card(title: string, path: string, index: Option<int>)

  /** The nodes above an item, or the item itself at a root. */
  function NewParents(areas: seq<FocusArea>, item: FocusArea): seq<FocusArea> {
    var parents := Parents(areas, item.uid);
    if |parents| > 0 then parents else [item]
  }

  /** The dictionary key of a selected item: the titles above it, nearest first, or its own title at a root. */
  function PathOf(areas: seq<FocusArea>, item: FocusArea): string {
    Join(Reverse(Map(NewParents(areas, item), (p: FocusArea) => p.title)), " > ")
  }

  function Members(areas: seq<FocusArea>, items: seq<FocusArea>, path: string): seq<FocusArea> {
    Filter(items, (v: FocusArea) => PathOf(areas, v) == path)
  }

  /** The paths of the selection in the order in which they first occur. */
  function Paths(areas: seq<FocusArea>, items: seq<FocusArea>): seq<string> {
    if items == [] then []
    else PathsStep(Paths(areas, items[..|items| - 1]), PathOf(areas, items[|items| - 1]))
  }

  function PathsStep(paths: seq<string>, path: string): seq<string> {
    if path in paths then paths else paths + [path]
  }

  lemma {:induction false} PathsAreThose(areas: seq<FocusArea>, items: seq<FocusArea>)
    ensures NoRepeats(Paths(areas, items))
    ensures forall v :: v in items ==> PathOf(areas, v) in Paths(areas, items)
    ensures forall p :: p in Paths(areas, items) ==> Members(areas, items, p) != []
  {
    if items != [] {
      var before, last := items[..|items| - 1], items[|items| - 1];
      assert items == before + [last];
      PathsAreThose(areas, before);
      forall p | p in Paths(areas, items) ensures Members(areas, items, p) != [] {
        MembersSnoc(areas, before, last, p);
      }
    }
  }

  /** An item with path `p` is met before any with path `q`. */
  ghost predicate MetBefore(areas: seq<FocusArea>, items: seq<FocusArea>, p: string, q: string) {
    exists m :: 0 <= m < |items| && PathOf(areas, items[m]) == p
                && forall l :: 0 <= l <= m ==> PathOf(areas, items[l]) != q
  }

  lemma MetBeforeStays(areas: seq<FocusArea>, items: seq<FocusArea>, last: FocusArea, p: string, q: string)
    requires MetBefore(areas, items, p, q)
    ensures MetBefore(areas, items + [last], p, q)
  {
    var m :| 0 <= m < |items| && PathOf(areas, items[m]) == p
             && forall l :: 0 <= l <= m ==> PathOf(areas, items[l]) != q;
    var more := items + [last];
    assert more[m] == items[m] && forall l :: 0 <= l <= m ==> more[l] == items[l];
  }

  lemma PathsSnoc(areas: seq<FocusArea>, items: seq<FocusArea>, last: FocusArea)
    ensures Paths(areas, items + [last]) == PathsStep(Paths(areas, items), PathOf(areas, last))
  {
    var more := items + [last];
    assert more[..|more| - 1] == items && more[|more| - 1] == last;
  }

  lemma FirstMember(areas: seq<FocusArea>, items: seq<FocusArea>, p: string) returns (m: nat)
    requires p in Paths(areas, items)
    ensures m < |items| && PathOf(areas, items[m]) == p
  {
    PathsAreThose(areas, items);
    var v := Members(areas, items, p)[0];
    assert v in Members(areas, items, p);
    m :| m < |items| && items[m] == v;
  }

  lemma MetBeforeNew(areas: seq<FocusArea>, items: seq<FocusArea>, last: FocusArea, p: string)
    requires p in Paths(areas, items) && PathOf(areas, last) !in Paths(areas, items)
    ensures MetBefore(areas, items + [last], p, PathOf(areas, last))
  {
    var m := FirstMember(areas, items, p);
    var q, more := PathOf(areas, last), items + [last];
    forall l | 0 <= l <= m ensures PathOf(areas, more[l]) != q {
      PathsAreThose(areas, items);
      assert more[l] == items[l] && items[l] in items;
    }
    assert more[m] == items[m];
  }

  /** The paths are listed in the order in which the items bring them up. */
  lemma {:induction false} PathsInOrder(areas: seq<FocusArea>, items: seq<FocusArea>, i: nat, j: nat)
    requires i < j < |Paths(areas, items)|
    ensures MetBefore(areas, items, Paths(areas, items)[i], Paths(areas, items)[j])
  {
    var front, last := items[..|items| - 1], items[|items| - 1];
    assert items == front + [last];
    PathsSnoc(areas, front, last);
    if j < |Paths(areas, front)| {
      PathsInOrder(areas, front, i, j);
      MetBeforeStays(areas, front, last, Paths(areas, front)[i], Paths(areas, front)[j]);
    } else {
      MetBeforeNew(areas, front, last, Paths(areas, front)[i]);
    }
  }

  lemma MembersSnoc(areas: seq<FocusArea>, items: seq<FocusArea>, last: FocusArea, path: string)
    ensures Members(areas, items + [last], path)
            == Members(areas, items, path) + (if PathOf(areas, last) == path then [last] else [])
  {
    FilterAppend(items, [last], (v: FocusArea) => PathOf(areas, v) == path);
    assert [last][1..] == [];
  }

  function Titles(items: seq<FocusArea>): string {
    Join(Map(items, (v: FocusArea) => v.title), ", ")
  }

  /** The card of the items under one path: all their titles, and the index of the one selected first. */
  function CardOf(areas: seq<FocusArea>, members: seq<FocusArea>, path: string): Card
    requires members != []
  {
    Card(Titles(members), if path != "" then path else members[0].title, IndexOf(areas, members[0].uid))
  }

  lemma CardSnoc(areas: seq<FocusArea>, members: seq<FocusArea>, last: FocusArea, path: string)
    requires members != []
    ensures var card := CardOf(areas, members, path);
            CardOf(areas, members + [last], path) == card.(title := card.title + ", " + last.title)
  {
    var title := (v: FocusArea) => v.title;
    MapAppend(members, [last], title);
    assert Map([last], title) == [last.title];
    JoinSnoc(Map(members, title), last.title, ", ");
  }

  lemma {:induction false} JoinSnoc(parts: seq<string>, last: string, separator: string)
    requires parts != []
    ensures Join(parts + [last], separator) == Join(parts, separator) + separator + last
  {
    assert (parts + [last])[1..] == parts[1..] + [last];
    if |parts| == 1 {
      assert parts[1..] + [last] == [last];
    } else {
      JoinSnoc(parts[1..], last, separator);
    }
  }

  /** The dictionary after one more selected item. */
  function AddCard(areas: seq<FocusArea>, cards: map<string, Card>, last: FocusArea): map<string, Card> {
    var path := PathOf(areas, last);
    cards[path := if path in cards then cards[path].(title := cards[path].title + ", " + last.title)
                  else Card(last.title, if path != "" then path else last.title, IndexOf(areas, last.uid))]
  }

  function CardMap(areas: seq<FocusArea>, items: seq<FocusArea>): map<string, Card> {
    if items == [] then map[]
    else AddCard(areas, CardMap(areas, items[..|items| - 1]), items[|items| - 1])
  }

  /** The dictionary holds, under each path, the card of the items with that path. */
  ghost predicate Filled(areas: seq<FocusArea>, items: seq<FocusArea>, cards: map<string, Card>) {
    && (forall p :: p in cards <==> p in Paths(areas, items))
    && (forall p :: p in Paths(areas, items) ==>
          Members(areas, items, p) != [] && cards[p] == CardOf(areas, Members(areas, items, p), p))
  }

  /** The card of the path of one more item: extended, or opened. */
  lemma CardStep(areas: seq<FocusArea>, items: seq<FocusArea>, last: FocusArea)
    ensures var path := PathOf(areas, last);
            var was, now := Members(areas, items, path), Members(areas, items + [last], path);
            && now == was + [last]
            && CardOf(areas, now, path) ==
                 if was == [] then CardOf(areas, [last], path)
                 else CardOf(areas, was, path).(title := CardOf(areas, was, path).title + ", " + last.title)
  {
    var path := PathOf(areas, last);
    var was := Members(areas, items, path);
    MembersSnoc(areas, items, last, path);
    if was != [] {
      CardSnoc(areas, was, last, path);
    } else {
      assert was + [last] == [last];
    }
  }

  lemma NoMembersOfNewPath(areas: seq<FocusArea>, items: seq<FocusArea>, path: string)
    ensures path in Paths(areas, items) <==> Members(areas, items, path) != []
  {
    PathsAreThose(areas, items);
    if Members(areas, items, path) != [] {
      assert Members(areas, items, path)[0] in Members(areas, items, path);
    }
  }

  /** The card of the path of the item added. */
  lemma CardHere(areas: seq<FocusArea>, items: seq<FocusArea>, last: FocusArea, cards: map<string, Card>)
    requires Filled(areas, items, cards)
    ensures var path, more := PathOf(areas, last), items + [last];
            Members(areas, more, path) != []
            && AddCard(areas, cards, last)[path] == CardOf(areas, Members(areas, more, path), path)
  {
    NoMembersOfNewPath(areas, items, PathOf(areas, last));
    CardStep(areas, items, last);
    assert CardOf(areas, [last], PathOf(areas, last)).title == last.title;
  }

  /** Every other card stays. */
  lemma CardElsewhere(
      areas: seq<FocusArea>, items: seq<FocusArea>, last: FocusArea, cards: map<string, Card>, p: string)
    requires Filled(areas, items, cards) && p in Paths(areas, items) && p != PathOf(areas, last)
    ensures var more := items + [last];
            Members(areas, more, p) != []
            && AddCard(areas, cards, last)[p] == CardOf(areas, Members(areas, more, p), p)
  {
    MembersSnoc(areas, items, last, p);
    assert Members(areas, items + [last], p) == Members(areas, items, p);
  }

  lemma FilledStep(areas: seq<FocusArea>, items: seq<FocusArea>, last: FocusArea, cards: map<string, Card>)
    requires Filled(areas, items, cards)
    ensures Filled(areas, items + [last], AddCard(areas, cards, last))
  {
    var path, more := PathOf(areas, last), items + [last];
    PathsSnoc(areas, items, last);
    CardHere(areas, items, last, cards);
    forall p | p in Paths(areas, more) && p != path
      ensures Members(areas, more, p) != []
              && AddCard(areas, cards, last)[p] == CardOf(areas, Members(areas, more, p), p)
    {
      CardElsewhere(areas, items, last, cards, p);
    }
  }

  lemma {:induction false} CardMapIsFilled(areas: seq<FocusArea>, items: seq<FocusArea>)
    ensures Filled(areas, items, CardMap(areas, items))
  {
    if items != [] {
      var front, last := items[..|items| - 1], items[|items| - 1];
      assert items == front + [last];
      CardMapIsFilled(areas, front);
      FilledStep(areas, front, last, CardMap(areas, front));
    }
  }

  /** The cards in the order in which their paths were first met. */
  function CardsOf(areas: seq<FocusArea>, items: seq<FocusArea>): seq<Card> {
    PathsAreThose(areas, items);
    CardsAt(areas, items, Paths(areas, items))
  }

  function CardsAt(areas: seq<FocusArea>, items: seq<FocusArea>, paths: seq<string>): seq<Card>
    requires forall p :: p in paths ==> Members(areas, items, p) != []
  {
    seq(|paths|, i requires 0 <= i < |paths| => CardOf(areas, Members(areas, items, paths[i]), paths[i]))
  }

  /** The card reads out the items under its path: their titles in the order selected, and the first one's index. */
  ghost predicate Says(areas: seq<FocusArea>, items: seq<FocusArea>, path: string, card: Card) {
    var members := Filter(items, (v: FocusArea) => PathOf(areas, v) == path);
    && members != []
    && card.title == Join(Map(members, (v: FocusArea) => v.title), ", ")
    && (path != "" ==> card.path == path)
    && (path == "" ==> card.path == members[0].title)
    && (members[0].uid !in Uids(areas) ==> card.index == None)
    && (members[0].uid in Uids(areas) ==>
          exists k :: 0 <= k < |Preorder(areas)| && Preorder(areas)[k].uid == members[0].uid
                      && card.index == Some(k + 1))
  }

  lemma CardsSay(areas: seq<FocusArea>, items: seq<FocusArea>)
    ensures forall c :: c in CardsOf(areas, items) ==> exists path :: Says(areas, items, path, c)
  {
    PathsAreThose(areas, items);
    var cards, paths := CardsOf(areas, items), Paths(areas, items);
    forall i | 0 <= i < |cards| ensures Says(areas, items, paths[i], cards[i]) {
      CardSays(areas, items, paths[i]);
    }
  }

  lemma CardSays(areas: seq<FocusArea>, items: seq<FocusArea>, path: string)
    requires Members(areas, items, path) != []
    ensures Says(areas, items, path, CardOf(areas, Members(areas, items, path), path))
  {
    PositionOfListed(areas, Members(areas, items, path)[0].uid);
  }

  method GetSelectedItems(rawData: seq<FocusArea>, selectedValues: seq<FocusArea>) returns (cards: seq<Card>)
    requires UniqueUids(rawData) && Numbered(Preorder(rawData), 1)
    ensures cards == CardsOf(rawData, selectedValues)
    ensures forall c :: c in cards ==> exists path :: Says(rawData, selectedValues, path, c)
  {
    var selectedParents, keys := FillSelectedParents(rawData, selectedValues);
    CardMapKeys(rawData, selectedValues);
    CardMapGivesCards(rawData, selectedValues);
    CardsSay(rawData, selectedValues);
    cards := ObjectValues(selectedParents, keys);
  }

  lemma CardMapGivesCards(areas: seq<FocusArea>, items: seq<FocusArea>)
    requires forall p :: p in Paths(areas, items) ==> p in CardMap(areas, items)
    ensures ObjectValues(CardMap(areas, items), Paths(areas, items)) == CardsOf(areas, items)
  {
    CardMapIsFilled(areas, items);
    PathsAreThose(areas, items);
  }

  /** `selectedValues.forEach` over the dictionary; the keys are kept beside it in insertion order. */
  method FillSelectedParents(rawData: seq<FocusArea>, selectedValues: seq<FocusArea>)
    returns (selectedParents: map<string, Card>, keys: seq<string>)
    requires UniqueUids(rawData) && Numbered(Preorder(rawData), 1)
    ensures selectedParents == CardMap(rawData, selectedValues) && keys == Paths(rawData, selectedValues)
  {
    selectedParents, keys := map[], [];
    ghost var all := Preorder(rawData);
    assert allocated(all);
    for i := 0 to |selectedValues|
      invariant selectedParents == CardMap(rawData, selectedValues[..i])
      invariant keys == Paths(rawData, selectedValues[..i])
      invariant Numbered(all, 1)
    {
      CardMapSnoc(rawData, selectedValues, i);
      CardMapKeys(rawData, selectedValues[..i]);
      selectedParents, keys := AddSelected(rawData, selectedValues[i], selectedParents, keys);
    }
    assert selectedValues[..|selectedValues|] == selectedValues;
  }

  lemma CardMapSnoc(areas: seq<FocusArea>, items: seq<FocusArea>, i: nat)
    requires i < |items|
    ensures CardMap(areas, items[..i + 1]) == AddCard(areas, CardMap(areas, items[..i]), items[i])
    ensures Paths(areas, items[..i + 1]) == PathsStep(Paths(areas, items[..i]), PathOf(areas, items[i]))
  {
    assert items[..i + 1][..i] == items[..i];
  }

  lemma CardMapKeys(areas: seq<FocusArea>, items: seq<FocusArea>)
    ensures forall p :: p in CardMap(areas, items) <==> p in Paths(areas, items)
  {
    CardMapIsFilled(areas, items);
  }

  method PathTitle(rawData: seq<FocusArea>, selectedValue: FocusArea) returns (path: string)
    ensures path == PathOf(rawData, selectedValue)
  {
    var parents := FindParents(rawData, selectedValue.uid);
    var newParents := if |parents| > 0 then parents else [selectedValue];
    path := Join(Reverse(Map(newParents, (p: FocusArea) => p.title)), " > ");
  }

  /** The callback of `selectedValues.forEach`. */
  method AddSelected(
      rawData: seq<FocusArea>, selectedValue: FocusArea, selectedParents: map<string, Card>, keys: seq<string>)
    returns (selectedParents': map<string, Card>, keys': seq<string>)
    requires UniqueUids(rawData) && Numbered(Preorder(rawData), 1)
    requires forall p :: p in selectedParents <==> p in keys
    ensures selectedParents' == AddCard(rawData, selectedParents, selectedValue)
    ensures keys' == PathsStep(keys, PathOf(rawData, selectedValue))
  {
    ghost var all := Preorder(rawData);
    assert allocated(all);
    var path := PathTitle(rawData, selectedValue);
    if path !in selectedParents {
      var index := FindNumberedIndex(rawData, selectedValue.uid);
      var card := Card(selectedValue.title, if path != "" then path else selectedValue.title, index);
      selectedParents' := selectedParents[path := card];
      keys' := keys + [path];
    } else {
      var card := selectedParents[path];
      selectedParents' := selectedParents[path := card.(title := card.title + ", " + selectedValue.title)];
      keys' := keys;
    }
  }

  /** `Object.values`, the keys in insertion order. */
  function ObjectValues(cards: map<string, Card>, keys: seq<string>): (r: seq<Card>)
    requires forall p :: p in keys ==> p in cards
    ensures |r| == |keys|
    ensures forall i :: 0 <= i < |r| ==> r[i] == cards[keys[i]]
  {
    if keys == [] then [] else [cards[keys[0]]] + ObjectValues(cards, keys[1..])
  }

  // ----- the cards partition the selection

  function Groups(areas: seq<FocusArea>, items: seq<FocusArea>, paths: seq<string>): seq<FocusArea> {
    if paths == [] then [] else Members(areas, items, paths[0]) + Groups(areas, items, paths[1..])
  }

  lemma {:induction false} FilterUnion<T>(s: seq<T>, p: T -> bool, q: T -> bool, r: T -> bool)
    requires forall x :: x in s ==> !(p(x) && q(x)) && (r(x) <==> p(x) || q(x))
    ensures multiset(Filter(s, r)) == multiset(Filter(s, p)) + multiset(Filter(s, q))
  {
    if s != [] {
      FilterUnion(s[1..], p, q, r);
    }
  }

  lemma {:induction false} GroupsPartition(areas: seq<FocusArea>, items: seq<FocusArea>, paths: seq<string>)
    requires NoRepeats(paths)
    ensures multiset(Groups(areas, items, paths))
            == multiset(Filter(items, (v: FocusArea) => PathOf(areas, v) in paths))
  {
    if paths == [] {
      FilterDropsAll(items, (v: FocusArea) => PathOf(areas, v) in paths);
    } else {
      GroupsPartition(areas, items, paths[1..]);
      FilterUnion(items, (v: FocusArea) => PathOf(areas, v) == paths[0],
                         (v: FocusArea) => PathOf(areas, v) in paths[1..],
                         (v: FocusArea) => PathOf(areas, v) in paths);
    }
  }

  /** Card by card, the members are the selected items, none lost and none repeated. */
  lemma CardsPartition(areas: seq<FocusArea>, items: seq<FocusArea>)
    ensures multiset(Groups(areas, items, Paths(areas, items))) == multiset(items)
  {
    PathsAreThose(areas, items);
    GroupsPartition(areas, items, Paths(areas, items));
    FilterKeepsAll(items, (v: FocusArea) => PathOf(areas, v) in Paths(areas, items));
  }

  // ----- the final sort

  /** The value of an index under subtraction: `null` counts as 0. */
  function Rank(card: Card): int {
    match card.index
    case None => 0
    case Some(i) => i
  }

  function FinalCards(areas: seq<FocusArea>, items: seq<FocusArea>): seq<Card> {
    StableSort(CardsOf(areas, items), (a: Card, b: Card) => Rank(a) <= Rank(b))
  }

  method SelectedFocusAreas(rawData: seq<FocusArea>, selectedItems: seq<FocusArea>) returns (cards: seq<Card>)
    requires UniqueUids(rawData) && DistinctSlots(Preorder(rawData))
    modifies Slots(Preorder(rawData))
    ensures Numbered(Preorder(rawData), 1)
    ensures cards == FinalCards(rawData, selectedItems)
    ensures UnlistedFirst(cards)
    ensures DistinctUids(selectedItems) && (forall v :: v in selectedItems ==> v.uid in Uids(rawData)) ==>
              Ascending(cards)
  {
    GetFormattedFocusArea(rawData);
    ghost var all := Preorder(rawData);
    assert allocated(all);
    var found := GetSelectedItems(rawData, selectedItems);
    cards := StableSort(found, (a: Card, b: Card) => Rank(a) <= Rank(b));
    CardsNeverDescend(rawData, selectedItems);
    if DistinctUids(selectedItems) && forall v :: v in selectedItems ==> v.uid in Uids(rawData) {
      CardsAscend(rawData, selectedItems);
    }
  }

  lemma IndexOfInjective(areas: seq<FocusArea>, a: string, b: string)
    requires a in Uids(areas) && a != b
    ensures IndexOf(areas, a).Some? && IndexOf(areas, a) != IndexOf(areas, b)
  {
    PositionOfListed(areas, a);
  }

  lemma IndexOfListed(areas: seq<FocusArea>, uid: string)
    ensures IndexOf(areas, uid).Some? <==> uid in Uids(areas)
  {
    PositionOfListed(areas, uid);
  }

  /** Every card has an index, and no two the same. */
  ghost predicate Apart(cards: seq<Card>) {
    && (forall c :: c in cards ==> c.index.Some?)
    && (forall i, j :: 0 <= i < j < |cards| ==> Rank(cards[i]) != Rank(cards[j]))
  }

  lemma CardsAreApart(areas: seq<FocusArea>, items: seq<FocusArea>)
    requires DistinctUids(items) && forall v :: v in items ==> v.uid in Uids(areas)
    ensures Apart(CardsOf(areas, items))
  {
    var cards := CardsOf(areas, items);
    PathsAreThose(areas, items);
    forall i, j | 0 <= i < |cards| && 0 <= j < |cards|
      ensures cards[i].index.Some? && (i != j ==> Rank(cards[i]) != Rank(cards[j]))
    {
      var p, q := Paths(areas, items)[i], Paths(areas, items)[j];
      var v, w := Members(areas, items, p)[0], Members(areas, items, q)[0];
      assert v in Members(areas, items, p) && w in Members(areas, items, q);
      assert v in items && w in items && (i != j ==> v != w);
      if i != j {
        IndexOfInjective(areas, v.uid, w.uid);
        IndexOfInjective(areas, w.uid, v.uid);
      } else {
        IndexOfListed(areas, v.uid);
      }
    }
  }

  lemma ApartByMultiset(a: seq<Card>, b: seq<Card>)
    requires Apart(a) && multiset(a) == multiset(b)
    ensures Apart(b)
  {
    SameMembers(a, b);
    forall i, j | 0 <= i < j < |b| ensures Rank(b[i]) != Rank(b[j]) {
      assert b[i] in a && b[j] in a;
      var k :| 0 <= k < |a| && a[k] == b[i];
      var l :| 0 <= l < |a| && a[l] == b[j];
      if k == l {
        assert b == b[..j] + b[j..];
        assert b[i] in b[..j] && b[i] in b[j..];
        OnceEach(a, b[i]);
      }
    }
  }

  /** Every card has an index, and each a smaller one than the next. */
  ghost predicate Ascending(cards: seq<Card>) {
    && (forall i :: 0 <= i < |cards| ==> cards[i].index.Some?)
    && (forall i, j :: 0 <= i < j < |cards| ==> cards[i].index.value < cards[j].index.value)
  }

  /** Cards without an index come first, and the others never descend. */
  ghost predicate UnlistedFirst(cards: seq<Card>) {
    forall i, j :: 0 <= i < j < |cards| && cards[i].index.Some? ==>
      cards[j].index.Some? && cards[i].index.value <= cards[j].index.value
  }

  lemma IndicesStartAtOne(areas: seq<FocusArea>, items: seq<FocusArea>)
    ensures forall c :: c in CardsOf(areas, items) && c.index.Some? ==> c.index.value >= 1
  {
    PathsAreThose(areas, items);
  }

  /** For any selection: an index that is `null` sorts as 0, and the indices of the forest start at 1. */
  lemma CardsNeverDescend(areas: seq<FocusArea>, items: seq<FocusArea>)
    ensures UnlistedFirst(FinalCards(areas, items))
    ensures multiset(FinalCards(areas, items)) == multiset(CardsOf(areas, items))
  {
    var byIndex := (a: Card, b: Card) => Rank(a) <= Rank(b);
    var cards, found := FinalCards(areas, items), CardsOf(areas, items);
    IndicesStartAtOne(areas, items);
    SameMembers(cards, found);
    StableSortSorted(found, byIndex);
    forall i, j | 0 <= i < j < |cards| && cards[i].index.Some?
      ensures cards[j].index.Some? && cards[i].index.value <= cards[j].index.value
    {
      assert byIndex(cards[i], cards[j]);
      assert cards[i] in cards && cards[j] in cards;
    }
  }

  /** The cards come out strictly ascending by the preorder index of each card's first-selected member. */
  lemma CardsAscend(areas: seq<FocusArea>, items: seq<FocusArea>)
    requires DistinctUids(items) && forall v :: v in items ==> v.uid in Uids(areas)
    ensures multiset(FinalCards(areas, items)) == multiset(CardsOf(areas, items))
    ensures Ascending(FinalCards(areas, items))
  {
    var cards := CardsOf(areas, items);
    CardsAreApart(areas, items);
    StableSortSorted(cards, (a: Card, b: Card) => Rank(a) <= Rank(b));
    ApartByMultiset(cards, FinalCards(areas, items));
    SortedApartAscend(FinalCards(areas, items), (a: Card, b: Card) => Rank(a) <= Rank(b));
  }

  lemma SortedApartAscend(cards: seq<Card>, byIndex: (Card, Card) -> bool)
    requires Apart(cards) && SortedBy(cards, byIndex) && forall x, y :: byIndex(x, y) <==> Rank(x) <= Rank(y)
    ensures Ascending(cards)
  {
    forall i, j | 0 <= i < j < |cards| ensures Rank(cards[i]) < Rank(cards[j]) {
      assert byIndex(cards[i], cards[j]);
    }
  }

  /** The order in which the dictionary enumerates its values does not show in the result. */
  lemma EnumerationOrderIsHidden(areas: seq<FocusArea>, items: seq<FocusArea>, enumerated: seq<Card>)
    requires DistinctUids(items) && forall v :: v in items ==> v.uid in Uids(areas)
    requires multiset(enumerated) == multiset(CardsOf(areas, items))
    ensures StableSort(enumerated, (a: Card, b: Card) => Rank(a) <= Rank(b)) == FinalCards(areas, items)
  {
    var cards, byIndex := CardsOf(areas, items), (a: Card, b: Card) => Rank(a) <= Rank(b);
    CardsAreApart(areas, items);
    SortsAlike(enumerated, cards, byIndex);
  }

  lemma ApartNoTies(cards: seq<Card>, byIndex: (Card, Card) -> bool)
    requires Apart(cards) && forall x, y :: byIndex(x, y) <==> Rank(x) <= Rank(y)
    ensures forall x, y :: x in cards && y in cards && byIndex(x, y) && byIndex(y, x) ==> x == y
  {
    forall x, y | x in cards && y in cards && Rank(x) == Rank(y) ensures x == y {
      var k :| 0 <= k < |cards| && cards[k] == x;
      var l :| 0 <= l < |cards| && cards[l] == y;
    }
  }

  lemma RankIsTotal(byIndex: (Card, Card) -> bool)
    requires forall x, y :: byIndex(x, y) <==> Rank(x) <= Rank(y)
    ensures TotalPreorder(byIndex)
  {
  }

  lemma SortsAlike(a: seq<Card>, b: seq<Card>, byIndex: (Card, Card) -> bool)
    requires Apart(b) && multiset(a) == multiset(b)
    requires forall x, y :: byIndex(x, y) <==> Rank(x) <= Rank(y)
    ensures StableSort(a, byIndex) == StableSort(b, byIndex)
  {
    RankIsTotal(byIndex);
    StableSortSorted(a, byIndex);
    StableSortSorted(b, byIndex);
    ApartByMultiset(b, StableSort(a, byIndex));
    ApartNoTies(StableSort(a, byIndex), byIndex);
    SortedIsUnique(StableSort(a, byIndex), StableSort(b, byIndex), byIndex);
  }
}
