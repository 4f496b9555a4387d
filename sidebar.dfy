/** The navigation sidebar: flattening the menu tree into the ids tracked
    while scrolling, choosing the active section from the positions of the
    sections on screen, expanding parents of the active entry, toggling a
    menu open or shut, and the highlight rule for menu entries. */
module Sidebar {
  import opened Wrappers
  import opened Seqs

  /** A menu entry; an entry without children has an empty `children` list. */
  datatype SidebarItem = SidebarItem(id: string, title: string, children: seq<SidebarItem>)

  // ----- getAllItemIds -----

  /** The entry's own id, unless it is empty (an empty string is falsy). */
  function OwnId(item: SidebarItem): seq<string>
  {
    if item.id != "" then [item.id] else []
  }

  /** The ids `getAllItemIds` returns: each entry's id, then its
      descendants' ids, then its later siblings' ids; empty ids left out. */
  function AllItemIds(items: seq<SidebarItem>): seq<string>
    decreases items
  {
    if items == [] then []
    else OwnId(items[0]) + AllItemIds(items[0].children) + AllItemIds(items[1..])
  }

  /** Number of entries in a forest, at every depth. */
  function NodeCount(items: seq<SidebarItem>): nat
    decreases items
  {
    if items == [] then 0 else 1 + NodeCount(items[0].children) + NodeCount(items[1..])
  }

  /** Some entry of the forest, at any depth, carries `id`. */
  ghost predicate InTree(items: seq<SidebarItem>, id: string)
    decreases items
  {
    exists k :: 0 <= k < |items| && (items[k].id == id || InTree(items[k].children, id))
  }

  /** Siblings keep their order: the ids of two consecutive runs of entries
      are the ids of the first run followed by those of the second. */
  lemma {:induction false} AllItemIdsAppend(a: seq<SidebarItem>, b: seq<SidebarItem>)
    ensures AllItemIds(a + b) == AllItemIds(a) + AllItemIds(b)
    decreases |a|
  {
    if a == [] {
      assert a + b == b;
    } else {
      assert (a + b)[0] == a[0] && (a + b)[1..] == a[1..] + b;
      AllItemIdsAppend(a[1..], b);
    }
  }

  /** Pre-order: an entry's id comes before its descendants' ids, and both
      come after the ids of the entries before it. */
  lemma AllItemIdsSnoc(front: seq<SidebarItem>, item: SidebarItem)
    ensures AllItemIds(front + [item]) == AllItemIds(front) + OwnId(item) + AllItemIds(item.children)
  {
    AllItemIdsAppend(front, [item]);
    assert [item][1..] == [];
    assert AllItemIds([item]) == OwnId(item) + AllItemIds(item.children) + AllItemIds([]);
  }

  /** Every listed id is non-empty, and there are no more ids than entries. */
  lemma {:induction false} AllItemIdsBounds(items: seq<SidebarItem>)
    ensures forall k :: 0 <= k < |AllItemIds(items)| ==> AllItemIds(items)[k] != ""
    ensures |AllItemIds(items)| <= NodeCount(items)
    decreases items
  {
    if items != [] {
      AllItemIdsBounds(items[0].children);
      AllItemIdsBounds(items[1..]);
    }
  }

  /** A string is listed exactly when it is a non-empty id of some entry. */
  lemma {:induction false} AllItemIdsMembers(items: seq<SidebarItem>, id: string)
    ensures id in AllItemIds(items) <==> id != "" && InTree(items, id)
    decreases items
  {
    if items != [] {
      var head, rest := items[0], items[1..];
      AllItemIdsMembers(head.children, id);
      AllItemIdsMembers(rest, id);
      assert InTree(items, id) <==> head.id == id || InTree(head.children, id) || InTree(rest, id) by {
        if InTree(items, id) {
          var k :| 0 <= k < |items| && (items[k].id == id || InTree(items[k].children, id));
          if k > 0 {
            assert rest[k - 1] == items[k];
          }
        }
        if InTree(rest, id) {
          var k :| 0 <= k < |rest| && (rest[k].id == id || InTree(rest[k].children, id));
          assert items[k + 1] == rest[k];
        }
      }
    }
  }

  /** `getAllItemIds`: walks the entries in order, pushing each non-empty id
      and then, recursively, the ids below it. */
  method GetAllItemIds(items: seq<SidebarItem>) returns (ids: seq<string>)
    ensures ids == AllItemIds(items)
    decreases items
  {
    ids := [];
    var i := 0;
    while i < |items|
      invariant 0 <= i <= |items|
      invariant ids == AllItemIds(items[..i])
    {
      var item := items[i];
      ghost var before := ids;
      if item.id != "" {
        ids := ids + [item.id];
      }
      assert ids == before + OwnId(item);
      var below := GetAllItemIds(item.children);
      ids := ids + below;
      AllItemIdsSnoc(items[..i], item);
      assert items[..i + 1] == items[..i] + [item];
      i := i + 1;
    }
    assert items[..i] == items;
  }

  // ----- the active section -----

  /** A section element that exists, with the distance of its top edge from
      the top of the viewport. */
  datatype Section = Section(id: string, top: int)

  /** A section becomes current once its top is at most this far down. */
  const ActivationOffset: int := 100

  /** `allIds.map(...).filter(Boolean)`: the ids whose element exists, with
      their positions; `tops` maps an id to its element's top edge. */
  function Sections(ids: seq<string>, tops: map<string, int>): seq<Section>
    decreases |ids|
  {
    if ids == [] then []
    else (if ids[0] in tops then [Section(ids[0], tops[ids[0]])] else []) + Sections(ids[1..], tops)
  }

  /** `.filter((s) => s.top <= 100)`. */
  function InView(secs: seq<Section>): seq<Section>
    decreases |secs|
  {
    if secs == [] then []
    else (if secs[0].top <= ActivationOffset then [secs[0]] else []) + InView(secs[1..])
  }

  /** Inserts `s` before the first entry whose top is not greater than its own. */
  function InsertByTop(s: Section, sorted: seq<Section>): (r: seq<Section>)
    ensures r != []
    ensures r[0] == if sorted == [] || sorted[0].top <= s.top then s else sorted[0]
    decreases |sorted|
  {
    if sorted == [] || sorted[0].top <= s.top then [s] + sorted
    else [sorted[0]] + InsertByTop(s, sorted[1..])
  }

  /** Inserting adds exactly `s`. */
  lemma {:induction false} InsertByTopPerm(s: Section, sorted: seq<Section>)
    ensures multiset(InsertByTop(s, sorted)) == multiset(sorted) + multiset{s}
    decreases |sorted|
  {
    if !(sorted == [] || sorted[0].top <= s.top) {
      InsertByTopPerm(s, sorted[1..]);
      assert sorted == [sorted[0]] + sorted[1..];
    }
  }

  /** `.sort((a, b) => b.top - a.top)`: a stable sort, greatest top first. */
  function SortByTopDesc(secs: seq<Section>): seq<Section>
    decreases |secs|
  {
    if secs == [] then [] else InsertByTop(secs[0], SortByTopDesc(secs[1..]))
  }

  ghost predicate SortedByTopDesc(secs: seq<Section>)
  {
    forall i, j :: 0 <= i < j < |secs| ==> secs[i].top >= secs[j].top
  }

  lemma {:induction false} InsertByTopSorted(s: Section, sorted: seq<Section>)
    requires SortedByTopDesc(sorted)
    ensures SortedByTopDesc(InsertByTop(s, sorted))
    decreases |sorted|
  {
    if !(sorted == [] || sorted[0].top <= s.top) {
      var rest := sorted[1..];
      assert SortedByTopDesc(rest);
      InsertByTopSorted(s, rest);
      InsertByTopPerm(s, rest);
      var r := InsertByTop(s, sorted);
      var inner := InsertByTop(s, rest);
      assert r == [sorted[0]] + inner;
      forall i, j | 0 <= i < j < |r| ensures r[i].top >= r[j].top {
        assert r[j] == inner[j - 1];
        if i > 0 {
          assert r[i] == inner[i - 1];
        } else {
          assert r[j] in multiset(inner);
          if r[j] != s {
            assert r[j] in multiset(rest);
            var k :| 0 <= k < |rest| && rest[k] == r[j];
            assert sorted[k + 1] == rest[k];
          }
        }
      }
    }
  }

  /** The sort yields a permutation of its input, greatest top first. */
  lemma {:induction false} SortByTopDescSpec(secs: seq<Section>)
    ensures multiset(SortByTopDesc(secs)) == multiset(secs)
    ensures SortedByTopDesc(SortByTopDesc(secs))
    decreases |secs|
  {
    if secs != [] {
      SortByTopDescSpec(secs[1..]);
      InsertByTopSorted(secs[0], SortByTopDesc(secs[1..]));
      InsertByTopPerm(secs[0], SortByTopDesc(secs[1..]));
      assert secs == [secs[0]] + secs[1..];
    }
  }

  /** The section `handleScroll` picks: the head of the sorted list, if any. */
  function CurrentSection(ids: seq<string>, tops: map<string, int>): Option<Section>
  {
    var sorted := SortByTopDesc(InView(Sections(ids, tops)));
    if sorted == [] then None else Some(sorted[0])
  }

  /** The id has a section element whose top is within the activation offset. */
  ghost predicate Qualifies(id: string, tops: map<string, int>)
  {
    id in tops && tops[id] <= ActivationOffset
  }

  /** `ids[k]` qualifies, no qualifying id lies lower on screen (greater top),
      and every earlier qualifying id lies strictly higher. */
  ghost predicate IsFirstHighest(ids: seq<string>, tops: map<string, int>, k: int)
  {
    && 0 <= k < |ids|
    && Qualifies(ids[k], tops)
    && (forall j :: 0 <= j < |ids| && Qualifies(ids[j], tops) ==> tops[ids[j]] <= tops[ids[k]])
    && (forall j :: 0 <= j < k && Qualifies(ids[j], tops) ==> tops[ids[j]] < tops[ids[k]])
  }

  lemma InViewSectionsUnfold(ids: seq<string>, tops: map<string, int>)
    requires ids != []
    ensures InView(Sections(ids, tops)) ==
      (if Qualifies(ids[0], tops) then [Section(ids[0], tops[ids[0]])] else []) + InView(Sections(ids[1..], tops))
  {
    var head := if ids[0] in tops then [Section(ids[0], tops[ids[0]])] else [];
    InViewAppend(head, Sections(ids[1..], tops));
    if head != [] {
      assert head[1..] == [];
    }
  }

  lemma {:induction false} InViewAppend(a: seq<Section>, b: seq<Section>)
    ensures InView(a + b) == InView(a) + InView(b)
    decreases |a|
  {
    if a == [] {
      assert a + b == b;
    } else {
      assert (a + b)[0] == a[0] && (a + b)[1..] == a[1..] + b;
      InViewAppend(a[1..], b);
    }
  }

  lemma {:induction false} SectionsAppend(a: seq<string>, b: seq<string>, tops: map<string, int>)
    ensures Sections(a + b, tops) == Sections(a, tops) + Sections(b, tops)
    decreases |a|
  {
    if a == [] {
      assert a + b == b;
    } else {
      assert (a + b)[0] == a[0] && (a + b)[1..] == a[1..] + b;
      SectionsAppend(a[1..], b, tops);
    }
  }

  lemma FirstHighestShift(ids: seq<string>, tops: map<string, int>, k: int)
    requires ids != [] && IsFirstHighest(ids[1..], tops, k)
    requires !Qualifies(ids[0], tops) || tops[ids[0]] < tops[ids[1..][k]]
    ensures IsFirstHighest(ids, tops, k + 1)
  {
    assert forall j :: 0 < j < |ids| ==> ids[j] == ids[1..][j - 1];
  }

  lemma FirstHighestHead(ids: seq<string>, tops: map<string, int>)
    requires ids != [] && Qualifies(ids[0], tops)
    requires forall j :: 0 <= j < |ids[1..]| && Qualifies(ids[1..][j], tops) ==> tops[ids[1..][j]] <= tops[ids[0]]
    ensures IsFirstHighest(ids, tops, 0)
  {
    assert forall j :: 0 < j < |ids| ==> ids[j] == ids[1..][j - 1];
  }

  /** How the first id changes the choice: an id that does not qualify
      changes nothing; one that does wins unless the choice among the later
      ids lies strictly lower. */
  lemma CurrentSectionStep(ids: seq<string>, tops: map<string, int>)
    requires ids != []
    ensures !Qualifies(ids[0], tops) ==> CurrentSection(ids, tops) == CurrentSection(ids[1..], tops)
    ensures Qualifies(ids[0], tops) ==>
      var sx := Section(ids[0], tops[ids[0]]);
      CurrentSection(ids, tops) == Some(
        match CurrentSection(ids[1..], tops)
        case None => sx
        case Some(h) => if h.top <= sx.top then sx else h)
  {
    var rest := ids[1..];
    InViewSectionsUnfold(ids, tops);
    var cands := InView(Sections(rest, tops));
    if !Qualifies(ids[0], tops) {
      assert InView(Sections(ids, tops)) == [] + cands == cands;
    } else {
      var sx := Section(ids[0], tops[ids[0]]);
      assert ([sx] + cands)[0] == sx && ([sx] + cands)[1..] == cands;
      assert SortByTopDesc(InView(Sections(ids, tops))) == InsertByTop(sx, SortByTopDesc(cands));
    }
  }

  /** The current section is the qualifying one that lies lowest on screen
      (greatest top at most 100); among equal tops, the earliest in `ids`.
      There is none exactly when no id qualifies. */
  lemma {:induction false} CurrentSectionIsFirstHighest(ids: seq<string>, tops: map<string, int>) returns (k: int)
    ensures CurrentSection(ids, tops).None? <==> forall j :: 0 <= j < |ids| ==> !Qualifies(ids[j], tops)
    ensures CurrentSection(ids, tops).Some? ==>
      IsFirstHighest(ids, tops, k) && CurrentSection(ids, tops).value == Section(ids[k], tops[ids[k]])
    decreases |ids|
  {
    k := 0;
    if ids == [] {
      return;
    }
    var x, rest := ids[0], ids[1..];
    assert forall j :: 0 < j < |ids| ==> ids[j] == rest[j - 1];
    CurrentSectionStep(ids, tops);
    var k' := CurrentSectionIsFirstHighest(rest, tops);
    var later := CurrentSection(rest, tops);
    if !Qualifies(x, tops) {
      if later.Some? {
        FirstHighestShift(ids, tops, k');
      }
      k := k' + 1;
    } else if later.None? || later.value.top <= tops[x] {
      FirstHighestHead(ids, tops);
    } else {
      FirstHighestShift(ids, tops, k');
      k := k' + 1;
    }
  }

  /** An id whose element does not exist has no influence on the choice. */
  lemma MissingElementIgnored(a: seq<string>, x: string, b: seq<string>, tops: map<string, int>)
    requires x !in tops
    ensures CurrentSection(a + [x] + b, tops) == CurrentSection(a + b, tops)
  {
    SectionsAppend(a + [x], b, tops);
    SectionsAppend(a, [x], tops);
    assert [x][1..] == [];
    assert Sections([x], tops) == [] + Sections([], tops) == [];
    assert Sections(a + [x] + b, tops) == Sections(a, tops) + Sections(b, tops);
    SectionsAppend(a, b, tops);
  }

  // ----- expanded menus -----

  /** `toggleMenu`'s new set: `menuId` flips, every other id keeps its membership. */
  function ToggledMenus(prev: set<string>, menuId: string): (r: set<string>)
    ensures menuId in r <==> menuId !in prev
    ensures forall x :: x != menuId ==> (x in r <==> x in prev)
  {
    if menuId in prev then prev - {menuId} else prev + {menuId}
  }

  /** Toggling the same menu twice restores the set. */
  lemma ToggleMenuTwice(prev: set<string>, menuId: string)
    ensures ToggledMenus(ToggledMenus(prev, menuId), menuId) == prev
  {
  }

  /** `children?.some((child) => child.id === id)`. */
  function HasChildWithId(children: seq<SidebarItem>, id: string): (r: bool)
    ensures r <==> exists k :: 0 <= k < |children| && children[k].id == id
    decreases |children|
  {
    if children == [] then
      false
    else
      var rest := HasChildWithId(children[1..], id);
      assert forall k :: 1 <= k < |children| ==> children[k] == children[1..][k - 1];
      children[0].id == id || rest
  }

  /** The ids of the top-level entries that have a direct child with id `activeId`. */
  ghost function ParentsOf(items: seq<SidebarItem>, activeId: string): set<string>
  {
    set k | 0 <= k < |items| && HasChildWithId(items[k].children, activeId) :: items[k].id
  }

  /** The auto-expand update: a copy of `prev` with the id of every
      top-level entry that has the active entry as a direct child added. */
  method ExpandParents(prev: set<string>, items: seq<SidebarItem>, activeId: string) returns (next: set<string>)
    ensures next == prev + ParentsOf(items, activeId)
  {
    next := prev;
    var i := 0;
    while i < |items|
      invariant 0 <= i <= |items|
      invariant next == prev + ParentsOf(items[..i], activeId)
    {
      var item := items[i];
      assert items[..i + 1][..i] == items[..i] && items[..i + 1][i] == item;
      assert ParentsOf(items[..i + 1], activeId) ==
        ParentsOf(items[..i], activeId) + (if HasChildWithId(item.children, activeId) then {item.id} else {});
      if HasChildWithId(item.children, activeId) {
        next := next + {item.id};
      }
      i := i + 1;
    }
    assert items[..i] == items;
  }

  // ----- rendering rules -----

  predicate HasChildren(item: SidebarItem)
  {
    |item.children| > 0
  }

  /** The entry's submenu is open. */
  predicate IsExpanded(item: SidebarItem, expanded: set<string>)
  {
    item.id in expanded
  }

  /** The highlight of an entry: its own id is active, or it has children and
      one of its direct children is active. */
  predicate IsActive(item: SidebarItem, activeId: string)
  {
    activeId == item.id || (HasChildren(item) && HasChildWithId(item.children, activeId))
  }

  /** An entry is highlighted exactly when it or one of its direct children is
      the active entry; deeper descendants do not count. */
  lemma IsActiveRule(item: SidebarItem, activeId: string)
    ensures IsActive(item, activeId) <==>
      activeId == item.id || exists k :: 0 <= k < |item.children| && item.children[k].id == activeId
  {
  }

  /** After auto-expansion, a top-level entry highlighted through a child is
      open, so the active child is on display. */
  lemma HighlightedParentIsOpen(prev: set<string>, items: seq<SidebarItem>, activeId: string, k: nat)
    requires k < |items| && IsActive(items[k], activeId) && items[k].id != activeId
    ensures HasChildren(items[k]) && IsExpanded(items[k], prev + ParentsOf(items, activeId))
  {
  }

  // ----- the component state -----

  /** The `Sidebar` component's state: the active id and the open menus. */
  class SidebarState {
    var activeId: string
    var expandedMenus: set<string>

    constructor ()
      ensures activeId == "" && expandedMenus == {}
    {
      activeId := "";
      expandedMenus := {};
    }

    /** `toggleMenu`: copy the set, delete or add the id, replace the set. */
    method ToggleMenu(menuId: string)
      modifies this
      ensures expandedMenus == ToggledMenus(old(expandedMenus), menuId)
      ensures activeId == old(activeId)
    {
      var newSet := expandedMenus;
      if menuId in newSet {
        newSet := newSet - {menuId};
      } else {
        newSet := newSet + {menuId};
      }
      expandedMenus := newSet;
    }

    /** `handleScroll`: when some section qualifies, it becomes active and its
      top-level parents are opened; otherwise nothing changes. `tops` is the
      position of every section element that exists. */
    method HandleScroll(items: seq<SidebarItem>, tops: map<string, int>)
      modifies this
      ensures CurrentSection(AllItemIds(items), tops).None? ==>
        activeId == old(activeId) && expandedMenus == old(expandedMenus)
      ensures CurrentSection(AllItemIds(items), tops).Some? ==>
        activeId == CurrentSection(AllItemIds(items), tops).value.id
        && expandedMenus == old(expandedMenus) + ParentsOf(items, activeId)
    {
      var allIds := GetAllItemIds(items);
      var current := CurrentSection(allIds, tops);
      if current.Some? {
        activeId := current.value.id;
        expandedMenus := ExpandParents(expandedMenus, items, activeId);
      }
    }
  }
}
