/** The member table: row selection with a redundant "all selected" flag, and the name sort. */
module MemberTable {
  import opened Sequences
  import opened Sorting

  datatype Member = Member(id: string, name: string)

  /** The values of `TABLE_SORT_VALUES`, in the order of its keys. */
  datatype SortOrder = DEFAULT | ASCENDING | DESCENDING

  function NextSortOrder(order: SortOrder): SortOrder {
    match order
    case DEFAULT => ASCENDING
    case ASCENDING => DESCENDING
    case DESCENDING => DEFAULT
  }

  /** The names a comparison puts in order; `localeCompare` is any total preorder. */
  type NameOrder = (string, string) -> bool

  function ByName(nameAtMost: NameOrder, members: seq<Member>): seq<Member> {
    StableSort(members, (a: Member, b: Member) => nameAtMost(a.name, b.name))
  }

  function ByNameDown(nameAtMost: NameOrder, members: seq<Member>): seq<Member> {
    StableSort(members, (a: Member, b: Member) => nameAtMost(b.name, a.name))
  }

  function Ids(members: seq<Member>): seq<string> {
    Map(members, (m: Member) => m.id)
  }

  // ----- the state and its handlers

  datatype State = State(isAllSelected: bool, selected: seq<string>, listed: seq<Member>, order: SortOrder)

  datatype Click = SelectAll | SelectRow(id: string) | SortByName

  function OnSelectAll(s: State): State {
    s.(isAllSelected := !s.isAllSelected, selected := if s.isAllSelected then [] else Ids(s.listed))
  }

  function Without(selected: seq<string>, id: string): seq<string> {
    Filter(selected, (uid: string) => uid != id)
  }

  function OnSelectRow(s: State, id: string): State {
    if id in s.selected then
      var rest := Without(s.selected, id);
      s.(selected := rest, isAllSelected := |rest| == |s.listed|)
    else
      var more := s.selected + [id];
      s.(selected := more, isAllSelected := s.isAllSelected || |more| == |s.listed|)
  }

  function OnSort(nameAtMost: NameOrder, members: seq<Member>, s: State): State {
    var next := NextSortOrder(s.order);
    s.(order := next,
       listed := match next
                 case ASCENDING => ByName(nameAtMost, s.listed)
                 case DESCENDING => ByNameDown(nameAtMost, s.listed)
                 case DEFAULT => members)
  }

  function OnClick(nameAtMost: NameOrder, members: seq<Member>, s: State, click: Click): State {
    match click
    case SelectAll => OnSelectAll(s)
    case SelectRow(id) => OnSelectRow(s, id)
    case SortByName => OnSort(nameAtMost, members, s)
  }

  function Initial(members: seq<Member>): State {
    State(false, [], members, DEFAULT)
  }

  function Run(nameAtMost: NameOrder, members: seq<Member>, s: State, clicks: seq<Click>): State
    decreases |clicks|
  {
    if clicks == [] then s else Run(nameAtMost, members, OnClick(nameAtMost, members, s, clicks[0]), clicks[1..])
  }

  // ----- what every run keeps

  /** Rows are clicked only where they are shown. */
  ghost predicate Possible(members: seq<Member>, click: Click) {
    click.SelectRow? ==> click.id in Ids(members)
  }

  ghost predicate AllPossible(members: seq<Member>, clicks: seq<Click>) {
    forall c :: c in clicks ==> Possible(members, c)
  }

  /** The selection is a set of listed ids, and the list is the given one in some order. */
  ghost predicate Selects(members: seq<Member>, s: State) {
    && multiset(s.listed) == multiset(members)
    && NoRepeats(s.selected)
    && (forall id :: id in s.selected ==> id in Ids(members))
  }

  /** The flag says whether every listed id is selected. */
  ghost predicate FlagAgrees(members: seq<Member>, s: State) {
    s.isAllSelected <==> forall id :: id in Ids(members) ==> id in s.selected
  }

  /** The list shown under each sort order. */
  ghost predicate Shown(nameAtMost: NameOrder, members: seq<Member>, s: State) {
    s.listed == match s.order
                case DEFAULT => members
                case ASCENDING => ByName(nameAtMost, members)
                case DESCENDING => ByNameDown(nameAtMost, ByName(nameAtMost, members))
  }

  ghost predicate Invariant(nameAtMost: NameOrder, members: seq<Member>, s: State) {
    Selects(members, s) && FlagAgrees(members, s) && Shown(nameAtMost, members, s)
  }

  lemma {:induction false} DistinctCount(a: seq<string>, b: seq<string>)
    requires NoRepeats(a) && forall x :: x in a ==> x in b
    ensures |a| <= |b|
    ensures NoRepeats(b) ==> (|a| == |b| <==> forall x :: x in b ==> x in a)
  {
    var sa, sb := set x | x in a, set x | x in b;
    SetSize(a);
    SetSizeAtMost(b);
    SubsetSize(sa, sb);
    if NoRepeats(b) {
      SetSize(b);
      if sa == sb {
        forall x | x in b ensures x in a { assert x in sb; }
      }
      if forall x :: x in b ==> x in a {
        assert sa == sb;
      }
    }
  }

  lemma {:induction false} SetSize(a: seq<string>)
    requires NoRepeats(a)
    ensures |set x | x in a| == |a|
  {
    if a != [] {
      assert NoRepeats(a[1..]);
      SetSize(a[1..]);
      assert (set x | x in a) == {a[0]} + (set x | x in a[1..]);
    }
  }

  lemma {:induction false} SetSizeAtMost(a: seq<string>)
    ensures |set x | x in a| <= |a|
  {
    if a != [] {
      SetSizeAtMost(a[1..]);
      assert (set x | x in a) == {a[0]} + (set x | x in a[1..]);
    }
  }

  lemma {:induction false} SubsetSize(a: set<string>, b: set<string>)
    requires a <= b
    ensures |a| <= |b|
    ensures |a| == |b| <==> a == b
  {
    assert b == a + (b - a) && a !! (b - a);
    assert |b| == |a| + |b - a|;
  }

  lemma SameIds(a: seq<Member>, b: seq<Member>)
    requires multiset(a) == multiset(b)
    ensures |a| == |b|
    ensures forall id :: id in Ids(a) <==> id in Ids(b)
  {
    SameMembers(a, b);
    IdsOf(a);
    IdsOf(b);
  }

  lemma IdsOf(members: seq<Member>)
    ensures forall id :: id in Ids(members) <==> exists m :: m in members && m.id == id
  {
    forall id | id in Ids(members) ensures exists m :: m in members && m.id == id {
      var i :| 0 <= i < |members| && Ids(members)[i] == id;
      assert members[i] in members;
    }
    forall m | m in members ensures m.id in Ids(members) {
      var i :| 0 <= i < |members| && members[i] == m;
      assert Ids(members)[i] == m.id;
    }
  }

  lemma IdsStayDistinct(a: seq<Member>, b: seq<Member>)
    requires NoRepeats(Ids(a)) && multiset(a) == multiset(b)
    ensures NoRepeats(Ids(b))
  {
    SameIds(a, b);
    DistinctIdsBySet(a);
    DistinctIdsBySet(b);
    SetSize(Ids(a));
    assert (set x | x in Ids(a)) == (set x | x in Ids(b));
  }

  /** As many different ids as rows means no id twice. */
  lemma {:induction false} DistinctIdsBySet(a: seq<Member>)
    ensures |set x | x in Ids(a)| == |a| <==> NoRepeats(Ids(a))
  {
    DistinctBySet(Ids(a));
  }

  lemma {:induction false} DistinctBySet(a: seq<string>)
    ensures |set x | x in a| == |a| <==> NoRepeats(a)
  {
    if NoRepeats(a) {
      SetSize(a);
    } else {
      var i, j :| 0 <= i < j < |a| && a[i] == a[j];
      var shorter := a[..j] + a[j + 1..];
      assert a[i] == shorter[i];
      forall x | x in a ensures x in shorter {
        var k :| 0 <= k < |a| && a[k] == x;
        if k < j { assert shorter[k] == x; } else if k > j { assert shorter[k - 1] == x; }
      }
      assert (set x | x in a) == (set x | x in shorter);
      SetSizeAtMost(shorter);
    }
  }

  lemma SelectAllKeeps(nameAtMost: NameOrder, members: seq<Member>, s: State)
    requires members != [] && NoRepeats(Ids(members)) && Invariant(nameAtMost, members, s)
    ensures Invariant(nameAtMost, members, OnSelectAll(s))
  {
    SameIds(members, s.listed);
    IdsStayDistinct(members, s.listed);
    assert Ids(members)[0] in Ids(members);
  }

  lemma SelectRowKeeps(nameAtMost: NameOrder, members: seq<Member>, s: State, id: string)
    requires NoRepeats(Ids(members)) && Invariant(nameAtMost, members, s) && id in Ids(members)
    ensures Invariant(nameAtMost, members, OnSelectRow(s, id))
  {
    SameIds(members, s.listed);
    var s' := OnSelectRow(s, id);
    if id in s.selected {
      FilterNoRepeats(s.selected, (uid: string) => uid != id);
    }
    DistinctCount(s'.selected, Ids(members));
  }

  lemma SortKeeps(nameAtMost: NameOrder, members: seq<Member>, s: State)
    requires Invariant(nameAtMost, members, s)
    ensures Invariant(nameAtMost, members, OnSort(nameAtMost, members, s))
  {
  }

  lemma ClickKeeps(nameAtMost: NameOrder, members: seq<Member>, s: State, click: Click)
    requires members != [] && NoRepeats(Ids(members)) && Possible(members, click)
    requires Invariant(nameAtMost, members, s)
    ensures Invariant(nameAtMost, members, OnClick(nameAtMost, members, s, click))
  {
    match click
    case SelectAll => SelectAllKeeps(nameAtMost, members, s);
    case SelectRow(id) => SelectRowKeeps(nameAtMost, members, s, id);
    case SortByName => SortKeeps(nameAtMost, members, s);
  }

  /** Over every run of clicks the selection is a duplicate-free subset of the listed ids; the flag agrees with it. */
  lemma {:induction false} RunsAgree(nameAtMost: NameOrder, members: seq<Member>, s: State, clicks: seq<Click>)
    requires members != [] && NoRepeats(Ids(members)) && AllPossible(members, clicks)
    requires Invariant(nameAtMost, members, s)
    ensures Invariant(nameAtMost, members, Run(nameAtMost, members, s, clicks))
    decreases |clicks|
  {
    if clicks != [] {
      ClickKeeps(nameAtMost, members, s, clicks[0]);
      RunsAgree(nameAtMost, members, OnClick(nameAtMost, members, s, clicks[0]), clicks[1..]);
    }
  }

  /** The first state satisfies the invariant exactly when there is a member to list. */
  lemma InitialAgrees(nameAtMost: NameOrder, members: seq<Member>)
    ensures Invariant(nameAtMost, members, Initial(members)) <==> members != []
  {
    if members != [] {
      assert Ids(members)[0] in Ids(members);
    }
  }

  /** Every duplicate-free list of listed ids can be selected: clicking its rows in order selects exactly it. */
  lemma {:induction false} ClickingRowsSelects(nameAtMost: NameOrder, members: seq<Member>, s: State, ids: seq<string>)
    requires NoRepeats(s.selected + ids)
    ensures Run(nameAtMost, members, s, RowClicks(ids)).selected == s.selected + ids
    decreases |ids|
  {
    if ids == [] {
      assert s.selected + ids == s.selected;
    } else {
      var all := s.selected + ids;
      assert all[|s.selected|] == ids[0];
      forall i | 0 <= i < |s.selected| ensures s.selected[i] != ids[0] {
        assert all[i] != all[|s.selected|];
      }
      var s' := OnSelectRow(s, ids[0]);
      assert s'.selected + ids[1..] == all;
      assert RowClicks(ids)[1..] == RowClicks(ids[1..]);
      ClickingRowsSelects(nameAtMost, members, s', ids[1..]);
    }
  }

  function RowClicks(ids: seq<string>): seq<Click> {
    Map(ids, (id: string) => SelectRow(id))
  }

  /** Dropping the only occurrence. */
  lemma {:induction false} WithoutAt(selected: seq<string>, k: nat, id: string)
    requires NoRepeats(selected) && k < |selected| && selected[k] == id
    ensures Without(selected, id) == selected[..k] + selected[k + 1..]
  {
    var rest := selected[1..];
    assert NoRepeats(rest);
    if k == 0 {
      FilterKeepsAll(rest, (uid: string) => uid != id);
    } else {
      WithoutAt(rest, k - 1, id);
      SpliceCons(selected, k);
    }
  }

  lemma SpliceCons(selected: seq<string>, k: nat)
    requires 0 < k < |selected|
    ensures selected[..k] + selected[k + 1..] == [selected[0]] + (selected[1..][..k - 1] + selected[1..][k..])
  {
  }

  /** What one click on a row does to the selection: it adds the id at the end, or takes out just that id. */
  lemma RowClick(nameAtMost: NameOrder, members: seq<Member>, s: State, id: string)
    requires NoRepeats(s.selected)
    ensures var s' := OnClick(nameAtMost, members, s, SelectRow(id));
            && NoRepeats(s'.selected) && s'.listed == s.listed && s'.order == s.order
            && (id !in s.selected ==> s'.selected == s.selected + [id])
            && (forall k :: 0 <= k < |s.selected| && s.selected[k] == id ==>
                  s'.selected == s.selected[..k] + s.selected[k + 1..])
  {
    if k :| 0 <= k < |s.selected| && s.selected[k] == id {
      WithoutAt(s.selected, k, id);
      FilterNoRepeats(s.selected, (uid: string) => uid != id);
    }
  }

  lemma RowClickToggles(nameAtMost: NameOrder, members: seq<Member>, s: State, id: string, other: string)
    requires NoRepeats(s.selected)
    ensures var s' := OnClick(nameAtMost, members, s, SelectRow(id));
            other in s'.selected <==> (other in s.selected) != (other == id)
  {
    RowClick(nameAtMost, members, s, id);
    if k :| 0 <= k < |s.selected| && s.selected[k] == id {
      assert forall j :: 0 <= j < |s.selected| && j != k ==> s.selected[j] != id;
      var rest := s.selected[..k] + s.selected[k + 1..];
      assert forall j :: 0 <= j < |s.selected| && j != k ==> s.selected[j] == rest[if j < k then j else j - 1];
    }
  }

  lemma RunRowClicks(nameAtMost: NameOrder, members: seq<Member>, s: State, ids: seq<string>)
    requires ids != []
    ensures var s' := OnClick(nameAtMost, members, s, SelectRow(ids[0]));
            Run(nameAtMost, members, s, RowClicks(ids)) == Run(nameAtMost, members, s', RowClicks(ids[1..]))
  {
    assert RowClicks(ids)[1..] == RowClicks(ids[1..]);
  }

  lemma FirstCounts(ids: seq<string>, id: string)
    requires ids != []
    ensures multiset(ids)[id] % 2 == 1 <==> (ids[0] == id) != (multiset(ids[1..])[id] % 2 == 1)
  {
    assert ids == [ids[0]] + ids[1..];
  }

  /** After any clicks on rows an id is as selected as it was at first, unless it was clicked an odd number of times. */
  lemma {:induction false} RowClicksToggle(
      nameAtMost: NameOrder, members: seq<Member>, s: State, ids: seq<string>, id: string)
    requires NoRepeats(s.selected)
    ensures id in Run(nameAtMost, members, s, RowClicks(ids)).selected <==>
              (id in s.selected) != (multiset(ids)[id] % 2 == 1)
    decreases |ids|
  {
    if ids != [] {
      var s' := OnClick(nameAtMost, members, s, SelectRow(ids[0]));
      assert NoRepeats(s'.selected) by { RowClick(nameAtMost, members, s, ids[0]); }
      RowClickToggles(nameAtMost, members, s, ids[0], id);
      RowClicksToggle(nameAtMost, members, s', ids[1..], id);
      RunRowClicks(nameAtMost, members, s, ids);
      FirstCounts(ids, id);
    }
  }

  /** The header box: nothing stays selected when all were, else everything is, in the order shown. */
  lemma HeaderClick(nameAtMost: NameOrder, members: seq<Member>, s: State)
    ensures var s' := OnClick(nameAtMost, members, s, SelectAll);
            && s'.isAllSelected == !s.isAllSelected && s'.listed == s.listed && s'.order == s.order
            && (s.isAllSelected ==> s'.selected == [])
            && (!s.isAllSelected ==>
                  |s'.selected| == |s.listed| && forall i :: 0 <= i < |s.listed| ==> s'.selected[i] == s.listed[i].id)
  {
  }

  /** The names in order, from the first to the last row. */
  ghost predicate NamesUp(nameAtMost: NameOrder, members: seq<Member>) {
    forall i, j :: 0 <= i < j < |members| ==> nameAtMost(members[i].name, members[j].name)
  }

  ghost predicate NamesDown(nameAtMost: NameOrder, members: seq<Member>) {
    forall i, j :: 0 <= i < j < |members| ==> nameAtMost(members[j].name, members[i].name)
  }

  lemma SortsGoUpAndDown(nameAtMost: NameOrder, members: seq<Member>)
    requires TotalPreorder(nameAtMost)
    ensures NamesUp(nameAtMost, ByName(nameAtMost, members)) && NamesDown(nameAtMost, ByNameDown(nameAtMost, members))
  {
    var up := (a: Member, b: Member) => nameAtMost(a.name, b.name);
    var down := (a: Member, b: Member) => nameAtMost(b.name, a.name);
    MembersOrdered(nameAtMost);
    StableSortSorted(members, up);
    StableSortSorted(members, down);
    forall i, j | 0 <= i < j < |members| ensures up(ByName(nameAtMost, members)[i], ByName(nameAtMost, members)[j]) {}
    forall i, j | 0 <= i < j < |members|
      ensures down(ByNameDown(nameAtMost, members)[i], ByNameDown(nameAtMost, members)[j])
    {}
  }

  /** The sort clicks go round: names up, then names down, then the list as given; the selection stays. */
  lemma SortClicks(nameAtMost: NameOrder, members: seq<Member>, s: State)
    requires TotalPreorder(nameAtMost) && s.order == DEFAULT
    ensures var up := OnClick(nameAtMost, members, s, SortByName);
            var down := OnClick(nameAtMost, members, up, SortByName);
            && NamesUp(nameAtMost, up.listed) && up == s.(listed := up.listed, order := ASCENDING)
            && NamesDown(nameAtMost, down.listed) && down == s.(listed := down.listed, order := DESCENDING)
            && multiset(up.listed) == multiset(down.listed) == multiset(s.listed)
            && OnClick(nameAtMost, members, down, SortByName) == s.(listed := members)
  {
    var up := OnClick(nameAtMost, members, s, SortByName);
    SortUp(nameAtMost, members, s);
    SortDown(nameAtMost, members, up);
  }

  lemma SortUp(nameAtMost: NameOrder, members: seq<Member>, s: State)
    requires TotalPreorder(nameAtMost) && s.order == DEFAULT
    ensures var up := OnClick(nameAtMost, members, s, SortByName);
            && NamesUp(nameAtMost, up.listed) && up == s.(listed := up.listed, order := ASCENDING)
            && multiset(up.listed) == multiset(s.listed)
  {
    SortsGoUpAndDown(nameAtMost, s.listed);
  }

  lemma SortDown(nameAtMost: NameOrder, members: seq<Member>, s: State)
    requires TotalPreorder(nameAtMost) && s.order == ASCENDING
    ensures var down := OnClick(nameAtMost, members, s, SortByName);
            && NamesDown(nameAtMost, down.listed) && down == s.(listed := down.listed, order := DESCENDING)
            && multiset(down.listed) == multiset(s.listed)
            && OnClick(nameAtMost, members, down, SortByName) == s.(listed := members, order := DEFAULT)
  {
    SortsGoUpAndDown(nameAtMost, s.listed);
  }

  lemma MembersOrdered(nameAtMost: NameOrder)
    requires TotalPreorder(nameAtMost)
    ensures TotalPreorder((a: Member, b: Member) => nameAtMost(a.name, b.name))
    ensures TotalPreorder((a: Member, b: Member) => nameAtMost(b.name, a.name))
  {
    var up := (a: Member, b: Member) => nameAtMost(a.name, b.name);
    var down := (a: Member, b: Member) => nameAtMost(b.name, a.name);
    forall a, b ensures up(a, b) || up(b, a) { assert nameAtMost(a.name, b.name) || nameAtMost(b.name, a.name); }
    forall a, b ensures down(a, b) || down(b, a) { assert nameAtMost(a.name, b.name) || nameAtMost(b.name, a.name); }
    forall a, b, c | up(a, b) && up(b, c) ensures up(a, c) { Chain(nameAtMost, a.name, b.name, c.name); }
    forall a, b, c | down(a, b) && down(b, c) ensures down(a, c) { Chain(nameAtMost, c.name, b.name, a.name); }
  }

  lemma Chain(nameAtMost: NameOrder, a: string, b: string, c: string)
    requires TotalPreorder(nameAtMost) && nameAtMost(a, b) && nameAtMost(b, c)
    ensures nameAtMost(a, c)
  {
  }

  /** The members of one name, in the order in which a list has them. */
  function Named(members: seq<Member>, name: string): seq<Member> {
    Filter(members, (m: Member) => m.name == name)
  }

  lemma TiesStay(nameAtMost: NameOrder, members: seq<Member>, name: string)
    requires TotalPreorder(nameAtMost)
    ensures Named(ByName(nameAtMost, members), name) == Named(members, name)
    ensures Named(ByNameDown(nameAtMost, members), name) == Named(members, name)
  {
    assert nameAtMost(name, name);
    StableSortStable(members, (a: Member, b: Member) => nameAtMost(a.name, b.name), (m: Member) => m.name == name);
    StableSortStable(members, (a: Member, b: Member) => nameAtMost(b.name, a.name), (m: Member) => m.name == name);
  }

  /** What each sort shows: the names in order, up or down, and members of one name in the order they had. */
  lemma SortedByName(nameAtMost: NameOrder, members: seq<Member>, name: string)
    requires TotalPreorder(nameAtMost)
    ensures SortedBy(ByName(nameAtMost, members), (a: Member, b: Member) => nameAtMost(a.name, b.name))
    ensures SortedBy(ByNameDown(nameAtMost, members), (a: Member, b: Member) => nameAtMost(b.name, a.name))
    ensures Named(ByName(nameAtMost, members), name) == Named(members, name)
    ensures Named(ByNameDown(nameAtMost, members), name) == Named(members, name)
    ensures Named(ByNameDown(nameAtMost, ByName(nameAtMost, members)), name) == Named(members, name)
  {
    MembersOrdered(nameAtMost);
    StableSortSorted(members, (a: Member, b: Member) => nameAtMost(a.name, b.name));
    StableSortSorted(members, (a: Member, b: Member) => nameAtMost(b.name, a.name));
    TiesStay(nameAtMost, members, name);
    TiesStay(nameAtMost, ByName(nameAtMost, members), name);
  }

  // ----- the component

  class Table {
    const members: seq<Member>
    const nameAtMost: NameOrder
    var isAllSelected: bool
    var selectedMembers: seq<string>
    var allMembers: seq<Member>
    var sortOrder: SortOrder

    function Now(): State
      reads this
    {
      State(isAllSelected, selectedMembers, allMembers, sortOrder)
    }

    /** A non-empty table of different ids whose selection and flag agree. */
    ghost predicate Valid()
      reads this
    {
      members != [] && NoRepeats(Ids(members)) && Invariant(nameAtMost, members, Now())
    }

    constructor (members: seq<Member>, nameAtMost: NameOrder)
      ensures this.members == members && this.nameAtMost == nameAtMost && Now() == Initial(members)
      ensures members != [] && NoRepeats(Ids(members)) ==> Valid()
    {
      InitialAgrees(nameAtMost, members);
      this.members, this.nameAtMost := members, nameAtMost;
      isAllSelected, selectedMembers, allMembers, sortOrder := false, [], members, DEFAULT;
    }

    method OnSelectAllClickHandler()
      modifies this
      ensures Now() == OnClick(nameAtMost, members, old(Now()), SelectAll)
      ensures selectedMembers == if old(isAllSelected) then [] else Ids(old(allMembers))
      ensures old(Valid()) ==> Valid()
    {
      if Valid() { SelectAllKeeps(nameAtMost, members, Now()); }
      var wasAllSelected := isAllSelected;
      isAllSelected := !wasAllSelected;
      if wasAllSelected {
        selectedMembers := [];
      } else {
        selectedMembers := Ids(allMembers);
      }
    }

    method OnMemberSelectHandler(id: string)
      modifies this
      ensures Now() == OnClick(nameAtMost, members, old(Now()), SelectRow(id))
      ensures id !in old(selectedMembers) ==> selectedMembers == old(selectedMembers) + [id]
      ensures old(Valid()) ==>
                forall k :: 0 <= k < |old(selectedMembers)| && old(selectedMembers)[k] == id ==>
                  selectedMembers == old(selectedMembers)[..k] + old(selectedMembers)[k + 1..]
      ensures old(Valid()) && id in Ids(members) ==> Valid()
    {
      if Valid() { RowClick(nameAtMost, members, Now(), id); }
      if Valid() && id in Ids(members) { SelectRowKeeps(nameAtMost, members, Now(), id); }
      if id in selectedMembers {
        isAllSelected := false;
        var filteredMembers := Filter(selectedMembers, (uid: string) => uid != id);
        selectedMembers := filteredMembers;
        if |filteredMembers| == |allMembers| {
          isAllSelected := true;
        }
      } else {
        var addedMembers := selectedMembers + [id];
        selectedMembers := addedMembers;
        if |addedMembers| == |allMembers| {
          isAllSelected := true;
        }
      }
    }

    method OnSortMembersByName()
      modifies this
      ensures Now() == OnClick(nameAtMost, members, old(Now()), SortByName)
      ensures old(Valid()) ==> Valid()
    {
      if Valid() { SortKeeps(nameAtMost, members, Now()); }
      var nextSortOrder := NextSortOrder(sortOrder);
      if nextSortOrder == ASCENDING {
        allMembers := ByName(nameAtMost, allMembers);
        sortOrder := nextSortOrder;
      } else if nextSortOrder == DESCENDING {
        allMembers := ByNameDown(nameAtMost, allMembers);
        sortOrder := nextSortOrder;
      } else {
        allMembers := members;
        sortOrder := nextSortOrder;
      }
    }
  }
}
