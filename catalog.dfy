/** The catalog page: filtering the three item buckets and the workshop
    upgrade table by a search term and a set of selected categories, the
    derived list of workshop groups, the result count, and the page's
    filter state. */
module Catalog {
  import opened Wrappers
  import opened Seqs
  import opened Text

  datatype Tier = Common | Uncommon | Rare | Epic | Legendary | Material

  /** One game item; only `name` and `category` take part in filtering. */
  datatype Item = Item(
    name: string,
    category: seq<string>,
    weight: Option<real>,
    value: real,
    quantity: Option<string>,
    tier: Tier,
    image: string,
    bgColor: string)

  /** The page state that filtering depends on. */
  datatype FilterState = FilterState(searchTerm: string, selectedCategories: seq<string>)

  /** The state after "Clear All Filters": no search term, no category. */
  const NoFilter := FilterState("", [])

  // ----- the item predicate -----

  /** `item.category.some((cat) => selected.includes(cat))`. */
  function SharesCategory(tags: seq<string>, selected: seq<string>): (r: bool)
    ensures r <==> exists k :: 0 <= k < |tags| && tags[k] in selected
    decreases |tags|
  {
    if tags == [] then
      false
    else
      var rest := SharesCategory(tags[1..], selected);
      assert forall k :: 1 <= k < |tags| ==> tags[k] == tags[1..][k - 1];
      tags[0] in selected || rest
  }

  /** The lower-cased name contains the lower-cased search term. */
  predicate MatchesSearch(item: Item, term: string)
  {
    Contains(Lower(item.name), Lower(term))
  }

  /** No category selected, or the item carries one of the selected ones. */
  predicate MatchesCategory(item: Item, selected: seq<string>)
  {
    |selected| == 0 || SharesCategory(item.category, selected)
  }

  predicate Matches(item: Item, st: FilterState)
  {
    MatchesSearch(item, st.searchTerm) && MatchesCategory(item, st.selectedCategories)
  }

  /** The search test ignores case on both sides. */
  lemma SearchIgnoresCase(item: Item, term: string)
    ensures MatchesSearch(item, term) <==> exists i :: OccursAt(Lower(item.name), Lower(term), i)
    ensures MatchesSearch(item, Lower(term)) == MatchesSearch(item, term)
    ensures MatchesSearch(item.(name := Lower(item.name)), term) == MatchesSearch(item, term)
  {
    LowerIdempotent(term);
    LowerIdempotent(item.name);
    ContainsSpec(Lower(item.name), Lower(term));
  }

  /** `filterItems`: keeps the items that match. */
  function FilterItems(items: seq<Item>, st: FilterState): seq<Item>
    decreases |items|
  {
    if items == [] then []
    else (if Matches(items[0], st) then [items[0]] else []) + FilterItems(items[1..], st)
  }

  /** Filtering keeps exactly the matching items, each as often as it
      occurs, in their original order. */
  lemma {:induction false} FilterItemsSpec(items: seq<Item>, st: FilterState)
    ensures IsSubsequence(FilterItems(items, st), items)
    ensures forall x :: x in FilterItems(items, st) <==> x in items && Matches(x, st)
    ensures forall x :: multiset(FilterItems(items, st))[x] == if Matches(x, st) then multiset(items)[x] else 0
    decreases |items|
  {
    if items != [] {
      FilterItemsSpec(items[1..], st);
      var rest := FilterItems(items[1..], st);
      assert items == [items[0]] + items[1..];
      if Matches(items[0], st) {
        assert FilterItems(items, st) == [items[0]] + rest;
        assert ([items[0]] + rest)[1..] == rest;
      } else {
        assert FilterItems(items, st) == rest;
      }
    }
  }

  /** When every item matches, filtering returns its input unchanged. */
  lemma {:induction false} FilterAllMatch(items: seq<Item>, st: FilterState)
    requires forall k :: 0 <= k < |items| ==> Matches(items[k], st)
    ensures FilterItems(items, st) == items
    decreases |items|
  {
    if items != [] {
      FilterAllMatch(items[1..], st);
    }
  }

  /** With no search term and no selected category, every item is kept. */
  lemma NoFilterKeepsAll(items: seq<Item>)
    ensures FilterItems(items, NoFilter) == items
  {
    forall k | 0 <= k < |items| ensures Matches(items[k], NoFilter) {
      ContainsEmpty(Lower(items[k].name));
    }
    FilterAllMatch(items, NoFilter);
  }

  /** Dropping the category restriction never loses an item: the restricted
      result is a subsequence of the unrestricted one, so it is no longer. */
  lemma {:induction false} CategoriesOnlyNarrow(items: seq<Item>, term: string, cats: seq<string>)
    ensures IsSubsequence(FilterItems(items, FilterState(term, cats)), FilterItems(items, FilterState(term, [])))
    ensures |FilterItems(items, FilterState(term, cats))| <= |FilterItems(items, FilterState(term, []))|
    decreases |items|
  {
    var narrow, wide := FilterItems(items, FilterState(term, cats)), FilterItems(items, FilterState(term, []));
    if items != [] {
      CategoriesOnlyNarrow(items[1..], term, cats);
      var x := items[0];
      var n1, w1 := FilterItems(items[1..], FilterState(term, cats)), FilterItems(items[1..], FilterState(term, []));
      assert items[1..] == items[1..];
      if Matches(x, FilterState(term, cats)) {
        assert narrow == [x] + n1 && wide == [x] + w1;
        assert ([x] + n1)[1..] == n1 && ([x] + w1)[1..] == w1;
      } else if Matches(x, FilterState(term, [])) {
        assert narrow == [] + n1 == n1;
        assert wide == [x] + w1;
        assert ([x] + w1)[1..] == w1;
        assert n1 == [] || IsSubsequence(n1, ([x] + w1)[1..]);
      } else {
        assert narrow == [] + n1 == n1;
        assert wide == [] + w1 == w1;
      }
    }
    SubsequenceLength(narrow, wide);
  }

  // ----- selected categories -----

  /** `prev.filter((c) => c !== category)`. */
  function RemoveAll(s: seq<string>, c: string): (r: seq<string>)
    ensures c !in r
    ensures forall x :: x != c ==> (x in r <==> x in s)
    ensures IsSubsequence(r, s)
    ensures forall x :: x != c ==> multiset(r)[x] == multiset(s)[x]
    decreases |s|
  {
    if s == [] then
      []
    else
      var rest := RemoveAll(s[1..], c);
      assert s == [s[0]] + s[1..];
      if s[0] != c then [s[0]] + rest else rest
  }

  /** `handleToggleCategory`: a selected category is removed (every
      occurrence of it); an unselected one is appended at the end. */
  function ToggledCategories(prev: seq<string>, category: string): (r: seq<string>)
    ensures category in r <==> category !in prev
    ensures forall x :: x != category ==> (x in r <==> x in prev)
    ensures category in prev ==> IsSubsequence(r, prev)
    ensures category in prev ==> forall x :: x != category ==> multiset(r)[x] == multiset(prev)[x]
    ensures category !in prev ==> r == prev + [category]
  {
    if category in prev then RemoveAll(prev, category) else prev + [category]
  }

  /** Toggling keeps a duplicate-free selection duplicate-free. */
  lemma ToggleKeepsNoDuplicates(prev: seq<string>, category: string)
    requires NoDuplicates(prev)
    ensures NoDuplicates(ToggledCategories(prev, category))
  {
    if category in prev {
      SubsequenceNoDuplicates(ToggledCategories(prev, category), prev);
    }
  }

  /** Removing a category that does not occur changes nothing. */
  lemma {:induction false} RemoveAllAbsent(s: seq<string>, c: string)
    requires c !in s
    ensures RemoveAll(s, c) == s
    decreases |s|
  {
    if s != [] {
      RemoveAllAbsent(s[1..], c);
    }
  }

  /** Removing every `c` from `s + [c]` removes just the appended one when `s` has none. */
  lemma {:induction false} RemoveAllAppended(s: seq<string>, c: string)
    requires c !in s
    ensures RemoveAll(s + [c], c) == s
    decreases |s|
  {
    if s == [] {
      assert [] + [c] == [c];
    } else {
      assert (s + [c])[0] == s[0] && (s + [c])[1..] == s[1..] + [c];
      RemoveAllAppended(s[1..], c);
    }
  }

  /** Selecting and then deselecting an unselected category restores the list exactly. */
  lemma ToggleAbsentTwice(prev: seq<string>, category: string)
    requires category !in prev
    ensures ToggledCategories(ToggledCategories(prev, category), category) == prev
  {
    RemoveAllAppended(prev, category);
  }

  /** Deselecting and reselecting a category restores which categories are selected. */
  lemma TogglePresentTwice(prev: seq<string>, category: string)
    requires category in prev
    ensures forall x :: x in ToggledCategories(ToggledCategories(prev, category), category) <==> x in prev
  {
  }

  // ----- workshop upgrades -----

  /** The levels of one bench, in declaration order: level identifier and items. */
  type Levels = seq<(string, seq<Item>)>

  /** The workshop table, in declaration order: bench name and its levels. */
  type Workshop = seq<(string, Levels)>

  /** One emitted `{ bench, level, items }` entry; a `None` level is `NaN`. */
  datatype WorkshopGroup = WorkshopGroup(bench: string, level: Option<int>, items: seq<Item>)

  /** `bench.replace(/([A-Z])/g, " $1").trim()`. */
  function BenchLabel(bench: string): string
  {
    Trim(SpaceBeforeCapitals(bench))
  }

  /** `parseInt(level.replace("level", ""))`. */
  function LevelNumber(levelId: string): Option<int>
  {
    ParseInt(ReplaceFirst(levelId, "level", ""))
  }

  /** For a bench name without white space, the label neither starts nor ends
      with white space, and deleting its spaces gives the name back. */
  lemma BenchLabelRoundTrip(bench: string)
    requires forall i :: 0 <= i < |bench| ==> !IsWhitespace(bench[i])
    ensures BenchLabel(bench) == [] || (!IsWhitespace(BenchLabel(bench)[0]) && !IsWhitespace(BenchLabel(bench)[|BenchLabel(bench)| - 1]))
    ensures DeleteSpaces(BenchLabel(bench)) == bench
  {
    InsertedWhitespaceIsSpace(bench);
    var a, b := TrimSpec(SpaceBeforeCapitals(bench));
    TrimDeletesOnlySpaces(SpaceBeforeCapitals(bench));
    assert IsWhitespace(' ');
    DeleteInsertedSpaces(bench);
  }

  /** `"level"` followed by decimal digits yields the number those digits denote. */
  lemma LevelOfDigits(digits: string)
    requires digits != []
    requires forall i :: 0 <= i < |digits| ==> '0' <= digits[i] <= '9'
    ensures LevelNumber("level" + digits) == Some(DigitsValue(digits, 10))
  {
    ReplaceFirstOfPrefix("level", digits);
    ParseIntDigits(digits);
  }

  /** The level identifier of level `n` parses back to `n`. */
  lemma LevelRoundTrip(n: nat)
    ensures LevelNumber("level" + DecimalString(n)) == Some(n)
  {
    LevelOfDigits(DecimalString(n));
    DecimalStringValue(n);
  }

  /** The group one level would produce, before the emptiness test. */
  function Candidate(bench: string, level: (string, seq<Item>), st: FilterState): WorkshopGroup
  {
    WorkshopGroup(BenchLabel(bench), LevelNumber(level.0), FilterItems(level.1, st))
  }

  /** The candidate groups of one bench's levels, in level order. */
  function BenchCandidates(bench: string, levels: Levels, st: FilterState): (r: seq<WorkshopGroup>)
    decreases |levels|
  {
    if levels == [] then []
    else BenchCandidates(bench, levels[..|levels| - 1], st) + [Candidate(bench, levels[|levels| - 1], st)]
  }

  lemma {:induction false} BenchCandidatesLength(bench: string, levels: Levels, st: FilterState)
    ensures |BenchCandidates(bench, levels, st)| == |levels|
    decreases |levels|
  {
    if levels != [] {
      BenchCandidatesLength(bench, levels[..|levels| - 1], st);
    }
  }

  lemma {:induction false} BenchCandidatesAt(bench: string, levels: Levels, st: FilterState)
    ensures |BenchCandidates(bench, levels, st)| == |levels|
    ensures forall j :: 0 <= j < |levels| ==> BenchCandidates(bench, levels, st)[j] == Candidate(bench, levels[j], st)
    decreases |levels|
  {
    if levels != [] {
      var n := |levels|;
      var front := levels[..n - 1];
      BenchCandidatesAt(bench, front, st);
      var bc, fc := BenchCandidates(bench, levels, st), BenchCandidates(bench, front, st);
      assert bc == fc + [Candidate(bench, levels[n - 1], st)];
      forall j | 0 <= j < n ensures bc[j] == Candidate(bench, levels[j], st) {
        if j < n - 1 {
          assert bc[j] == fc[j];
          assert front[j] == levels[j];
        }
      }
    }
  }

  /** Every level's candidate group, bench by bench, level by level. */
  function Candidates(ws: Workshop, st: FilterState): seq<WorkshopGroup>
    decreases |ws|
  {
    if ws == [] then []
    else Candidates(ws[..|ws| - 1], st) + BenchCandidates(ws[|ws| - 1].0, ws[|ws| - 1].1, st)
  }

  /** The groups with at least one item, in their original order. */
  function KeepNonEmpty(gs: seq<WorkshopGroup>): (r: seq<WorkshopGroup>)
    decreases |gs|
  {
    if gs == [] then []
    else KeepNonEmpty(gs[..|gs| - 1]) + (if |gs[|gs| - 1].items| > 0 then [gs[|gs| - 1]] else [])
  }

  /** `KeepNonEmpty` is an order-preserving filter on non-emptiness. */
  lemma {:induction false} KeepNonEmptySpec(gs: seq<WorkshopGroup>)
    ensures IsSubsequence(KeepNonEmpty(gs), gs)
    ensures forall g :: g in KeepNonEmpty(gs) <==> g in gs && |g.items| > 0
    decreases |gs|
  {
    if gs != [] {
      var front, last := gs[..|gs| - 1], gs[|gs| - 1];
      KeepNonEmptySpec(front);
      assert gs == front + [last];
      if |last.items| > 0 {
        SubsequenceSnoc(KeepNonEmpty(front), front, last);
      } else {
        assert KeepNonEmpty(gs) == KeepNonEmpty(front) + [] == KeepNonEmpty(front);
        SubsequenceExtend(KeepNonEmpty(front), front, last);
        assert IsSubsequence(KeepNonEmpty(front), front + [last]);
      }
    }
  }

  /** The derived workshop list: the non-empty candidate groups. */
  function WorkshopGroups(ws: Workshop, st: FilterState): seq<WorkshopGroup>
  {
    KeepNonEmpty(Candidates(ws, st))
  }

  /** One step of the inner loop: the next level's candidate is kept iff its
      filtered list is non-empty. */
  lemma LevelStep(prefix: seq<WorkshopGroup>, bench: string, levels: Levels, j: nat, st: FilterState)
    requires j < |levels|
    ensures KeepNonEmpty(prefix + BenchCandidates(bench, levels[..j + 1], st)) ==
      KeepNonEmpty(prefix + BenchCandidates(bench, levels[..j], st))
      + (if |FilterItems(levels[j].1, st)| > 0 then [Candidate(bench, levels[j], st)] else [])
  {
    var before := prefix + BenchCandidates(bench, levels[..j], st);
    var group := Candidate(bench, levels[j], st);
    assert levels[..j + 1][..j] == levels[..j] && levels[..j + 1][j] == levels[j];
    assert BenchCandidates(bench, levels[..j + 1], st) == BenchCandidates(bench, levels[..j], st) + [group];
    assert prefix + BenchCandidates(bench, levels[..j + 1], st) == before + [group];
    var after := before + [group];
    assert after[..|after| - 1] == before && after[|after| - 1] == group;
    assert group.items == FilterItems(levels[j].1, st);
    assert KeepNonEmpty(after) == KeepNonEmpty(before) + (if |group.items| > 0 then [group] else []);
  }

  /** One step of the outer loop: bench `i`'s candidates follow those of the earlier benches. */
  lemma BenchStep(ws: Workshop, i: nat, st: FilterState)
    requires i < |ws|
    ensures Candidates(ws[..i + 1], st) == Candidates(ws[..i], st) + BenchCandidates(ws[i].0, ws[i].1[..|ws[i].1|], st)
  {
    assert ws[..i + 1][..i] == ws[..i];
    assert ws[i].1[..|ws[i].1|] == ws[i].1;
  }

  /** The `filteredWorkshopUpgrades` computation: benches in order, levels in
      order, a group pushed for each level whose filtered list is non-empty. */
  method FilteredWorkshopUpgrades(ws: Workshop, st: FilterState) returns (result: seq<WorkshopGroup>)
    ensures result == WorkshopGroups(ws, st)
  {
    result := [];
    var i := 0;
    while i < |ws|
      invariant 0 <= i <= |ws|
      invariant result == KeepNonEmpty(Candidates(ws[..i], st))
    {
      var bench, levels := ws[i].0, ws[i].1;
      var j := 0;
      assert Candidates(ws[..i], st) + BenchCandidates(bench, levels[..0], st) == Candidates(ws[..i], st);
      while j < |levels|
        invariant 0 <= j <= |levels|
        invariant result == KeepNonEmpty(Candidates(ws[..i], st) + BenchCandidates(bench, levels[..j], st))
      {
        var level, items := levels[j].0, levels[j].1;
        var filtered := FilterItems(items, st);
        LevelStep(Candidates(ws[..i], st), bench, levels, j, st);
        if |filtered| > 0 {
          result := result + [WorkshopGroup(BenchLabel(bench), LevelNumber(level), filtered)];
        }
        j := j + 1;
      }
      BenchStep(ws, i, st);
      i := i + 1;
    }
    assert ws[..i] == ws;
  }

  /** Number of levels over all benches. */
  function LevelCount(ws: Workshop): nat
    decreases |ws|
  {
    if ws == [] then 0 else LevelCount(ws[..|ws| - 1]) + |ws[|ws| - 1].1|
  }

  /** The candidate of every level of every bench is among the candidates. */
  lemma {:induction false} CandidateOfLevel(ws: Workshop, st: FilterState, i: nat, j: nat)
    requires i < |ws| && j < |ws[i].1|
    ensures Candidate(ws[i].0, ws[i].1[j], st) in Candidates(ws, st)
    decreases |ws|
  {
    var n := |ws|;
    var front := ws[..n - 1];
    var last := BenchCandidates(ws[n - 1].0, ws[n - 1].1, st);
    assert Candidates(ws, st) == Candidates(front, st) + last;
    if i < n - 1 {
      CandidateOfLevel(front, st, i, j);
      assert front[i] == ws[i];
    } else {
      assert i == n - 1;
      BenchCandidatesLength(ws[i].0, ws[i].1, st);
      assert j < |last|;
      BenchCandidatesAt(ws[i].0, ws[i].1, st);
      assert last[j] == Candidate(ws[i].0, ws[i].1[j], st);
    }
  }

  lemma {:induction false} CandidatesLength(ws: Workshop, st: FilterState)
    ensures |Candidates(ws, st)| == LevelCount(ws)
    decreases |ws|
  {
    if ws != [] {
      CandidatesLength(ws[..|ws| - 1], st);
      BenchCandidatesAt(ws[|ws| - 1].0, ws[|ws| - 1].1, st);
    }
  }

  /** Every candidate is the group of some level of some bench. */
  lemma {:induction false} CandidateOrigin(ws: Workshop, st: FilterState, g: WorkshopGroup) returns (i: nat, j: nat)
    requires g in Candidates(ws, st)
    ensures i < |ws| && j < |ws[i].1| && g == Candidate(ws[i].0, ws[i].1[j], st)
    decreases |ws|
  {
    var n := |ws|;
    var front := ws[..n - 1];
    var last := BenchCandidates(ws[n - 1].0, ws[n - 1].1, st);
    assert Candidates(ws, st) == Candidates(front, st) + last;
    if g in Candidates(front, st) {
      i, j := CandidateOrigin(front, st, g);
      assert front[i] == ws[i];
    } else {
      BenchCandidatesAt(ws[n - 1].0, ws[n - 1].1, st);
      var k :| 0 <= k < |last| && last[k] == g;
      i, j := n - 1, k;
    }
  }

  /** A group is a candidate exactly when some level of some bench produces it. */
  lemma CandidateMembership(ws: Workshop, st: FilterState, g: WorkshopGroup)
    ensures g in Candidates(ws, st) <==>
      exists i, j :: 0 <= i < |ws| && 0 <= j < |ws[i].1| && g == Candidate(ws[i].0, ws[i].1[j], st)
  {
    if g in Candidates(ws, st) {
      var i, j := CandidateOrigin(ws, st, g);
    }
    if exists i, j :: 0 <= i < |ws| && 0 <= j < |ws[i].1| && g == Candidate(ws[i].0, ws[i].1[j], st) {
      var i, j :| 0 <= i < |ws| && 0 <= j < |ws[i].1| && g == Candidate(ws[i].0, ws[i].1[j], st);
      CandidateOfLevel(ws, st, i, j);
    }
  }

  /** Every emitted group has items, and is the group of some level; the
      group of a level is emitted exactly when its filtered list is non-empty;
      the emitted groups keep bench-then-level order. */
  lemma WorkshopGroupsSpec(ws: Workshop, st: FilterState)
    ensures IsSubsequence(WorkshopGroups(ws, st), Candidates(ws, st))
    ensures forall g :: g in WorkshopGroups(ws, st) ==> |g.items| > 0
    ensures forall g :: g in WorkshopGroups(ws, st) ==>
      exists i, j :: 0 <= i < |ws| && 0 <= j < |ws[i].1| && g == Candidate(ws[i].0, ws[i].1[j], st)
    ensures forall i, j :: 0 <= i < |ws| && 0 <= j < |ws[i].1| ==>
      (Candidate(ws[i].0, ws[i].1[j], st) in WorkshopGroups(ws, st) <==> |FilterItems(ws[i].1[j].1, st)| > 0)
  {
    KeepNonEmptySpec(Candidates(ws, st));
    forall g | g in WorkshopGroups(ws, st)
      ensures exists i, j :: 0 <= i < |ws| && 0 <= j < |ws[i].1| && g == Candidate(ws[i].0, ws[i].1[j], st)
    {
      CandidateMembership(ws, st, g);
    }
    forall i, j | 0 <= i < |ws| && 0 <= j < |ws[i].1|
      ensures Candidate(ws[i].0, ws[i].1[j], st) in WorkshopGroups(ws, st) <==> |FilterItems(ws[i].1[j].1, st)| > 0
    {
      CandidateOfLevel(ws, st, i, j);
    }
  }

  // ----- the derived view and its count -----

  /** The three item buckets and the workshop table. */
  datatype Catalog = Catalog(
    keepForQuests: seq<Item>,
    keepForProjects: seq<Item>,
    safeToRecycle: seq<Item>,
    workshopUpgrades: Workshop)

  /** What the page renders for one filter state. */
  datatype DerivedView = DerivedView(
    keepForQuests: seq<Item>,
    keepForProjects: seq<Item>,
    safeToRecycle: seq<Item>,
    workshopUpgrades: seq<WorkshopGroup>)

  function Derive(c: Catalog, st: FilterState): DerivedView
  {
    DerivedView(
      FilterItems(c.keepForQuests, st),
      FilterItems(c.keepForProjects, st),
      FilterItems(c.safeToRecycle, st),
      WorkshopGroups(c.workshopUpgrades, st))
  }

  /** `reduce((sum, wu) => sum + wu.items.length, 0)`. */
  function GroupItemCount(gs: seq<WorkshopGroup>): nat
    decreases |gs|
  {
    if gs == [] then 0 else GroupItemCount(gs[..|gs| - 1]) + |gs[|gs| - 1].items|
  }

  /** `totalResults`. */
  function TotalResults(v: DerivedView): nat
  {
    |v.keepForQuests| + |v.keepForProjects| + |v.safeToRecycle| + GroupItemCount(v.workshopUpgrades)
  }

  /** Number of matching items over every level of the workshop table. */
  function WorkshopMatchCount(ws: Workshop, st: FilterState): nat
    decreases |ws|
  {
    if ws == [] then 0 else WorkshopMatchCount(ws[..|ws| - 1], st) + LevelsMatchCount(ws[|ws| - 1].1, st)
  }

  function LevelsMatchCount(levels: Levels, st: FilterState): nat
    decreases |levels|
  {
    if levels == [] then 0
    else LevelsMatchCount(levels[..|levels| - 1], st) + |FilterItems(levels[|levels| - 1].1, st)|
  }

  lemma {:induction false} GroupItemCountAppend(a: seq<WorkshopGroup>, b: seq<WorkshopGroup>)
    ensures GroupItemCount(a + b) == GroupItemCount(a) + GroupItemCount(b)
    decreases |b|
  {
    if b == [] {
      assert a + b == a;
    } else {
      var front := b[..|b| - 1];
      assert (a + b)[..|a + b| - 1] == a + front;
      GroupItemCountAppend(a, front);
    }
  }

  lemma {:induction false} GroupItemCountKeepNonEmpty(gs: seq<WorkshopGroup>)
    ensures GroupItemCount(KeepNonEmpty(gs)) == GroupItemCount(gs)
    decreases |gs|
  {
    if gs != [] {
      var front, last := gs[..|gs| - 1], gs[|gs| - 1];
      var tail := if |last.items| > 0 then [last] else [];
      GroupItemCountKeepNonEmpty(front);
      GroupItemCountAppend(KeepNonEmpty(front), tail);
      if tail != [] {
        assert tail[..0] == [];
      }
    }
  }

  lemma {:induction false} GroupItemCountBench(bench: string, levels: Levels, st: FilterState)
    ensures GroupItemCount(BenchCandidates(bench, levels, st)) == LevelsMatchCount(levels, st)
    decreases |levels|
  {
    if levels != [] {
      var front := levels[..|levels| - 1];
      GroupItemCountBench(bench, front, st);
      var bc := BenchCandidates(bench, levels, st);
      assert bc[..|bc| - 1] == BenchCandidates(bench, front, st);
    }
  }

  lemma {:induction false} GroupItemCountCandidates(ws: Workshop, st: FilterState)
    ensures GroupItemCount(Candidates(ws, st)) == WorkshopMatchCount(ws, st)
    decreases |ws|
  {
    if ws != [] {
      var front := ws[..|ws| - 1];
      GroupItemCountCandidates(front, st);
      GroupItemCountAppend(Candidates(front, st), BenchCandidates(ws[|ws| - 1].0, ws[|ws| - 1].1, st));
      GroupItemCountBench(ws[|ws| - 1].0, ws[|ws| - 1].1, st);
    }
  }

  /** The total counts every matching item of the catalog once: bucket
      items, plus the items of every level, empty levels contributing 0. */
  lemma TotalResultsCountsMatches(c: Catalog, st: FilterState)
    ensures TotalResults(Derive(c, st)) ==
      |FilterItems(c.keepForQuests, st)| + |FilterItems(c.keepForProjects, st)|
      + |FilterItems(c.safeToRecycle, st)| + WorkshopMatchCount(c.workshopUpgrades, st)
  {
    GroupItemCountKeepNonEmpty(Candidates(c.workshopUpgrades, st));
    GroupItemCountCandidates(c.workshopUpgrades, st);
  }

  /** The total is zero exactly when all three buckets are empty and no
      workshop group is emitted (the "No items found" condition). */
  lemma TotalResultsZeroIff(c: Catalog, st: FilterState)
    ensures TotalResults(Derive(c, st)) == 0 <==>
      Derive(c, st).keepForQuests == [] && Derive(c, st).keepForProjects == []
      && Derive(c, st).safeToRecycle == [] && Derive(c, st).workshopUpgrades == []
  {
    var gs := WorkshopGroups(c.workshopUpgrades, st);
    WorkshopGroupsSpec(c.workshopUpgrades, st);
    if gs != [] {
      assert gs[|gs| - 1] in gs;
    }
  }

  lemma {:induction false} LevelsMatchCountNarrow(levels: Levels, term: string, cats: seq<string>)
    ensures LevelsMatchCount(levels, FilterState(term, cats)) <= LevelsMatchCount(levels, FilterState(term, []))
    decreases |levels|
  {
    if levels != [] {
      LevelsMatchCountNarrow(levels[..|levels| - 1], term, cats);
      CategoriesOnlyNarrow(levels[|levels| - 1].1, term, cats);
    }
  }

  lemma {:induction false} WorkshopMatchCountNarrow(ws: Workshop, term: string, cats: seq<string>)
    ensures WorkshopMatchCount(ws, FilterState(term, cats)) <= WorkshopMatchCount(ws, FilterState(term, []))
    decreases |ws|
  {
    if ws != [] {
      WorkshopMatchCountNarrow(ws[..|ws| - 1], term, cats);
      LevelsMatchCountNarrow(ws[|ws| - 1].1, term, cats);
    }
  }

  /** For a fixed search term, clearing the categories never lowers the total. */
  lemma TotalResultsCategoriesNarrow(c: Catalog, term: string, cats: seq<string>)
    ensures TotalResults(Derive(c, FilterState(term, cats))) <= TotalResults(Derive(c, FilterState(term, [])))
  {
    TotalResultsCountsMatches(c, FilterState(term, cats));
    TotalResultsCountsMatches(c, FilterState(term, []));
    CategoriesOnlyNarrow(c.keepForQuests, term, cats);
    CategoriesOnlyNarrow(c.keepForProjects, term, cats);
    CategoriesOnlyNarrow(c.safeToRecycle, term, cats);
    WorkshopMatchCountNarrow(c.workshopUpgrades, term, cats);
  }

  /** Number of items in every level of the workshop table. */
  function WorkshopItemCount(ws: Workshop): nat
    decreases |ws|
  {
    if ws == [] then 0 else WorkshopItemCount(ws[..|ws| - 1]) + LevelsItemCount(ws[|ws| - 1].1)
  }

  function LevelsItemCount(levels: Levels): nat
    decreases |levels|
  {
    if levels == [] then 0 else LevelsItemCount(levels[..|levels| - 1]) + |levels[|levels| - 1].1|
  }

  lemma {:induction false} WorkshopNoFilterCount(ws: Workshop)
    ensures WorkshopMatchCount(ws, NoFilter) == WorkshopItemCount(ws)
    decreases |ws|
  {
    if ws != [] {
      WorkshopNoFilterCount(ws[..|ws| - 1]);
      LevelsNoFilterCount(ws[|ws| - 1].1);
    }
  }

  lemma {:induction false} LevelsNoFilterCount(levels: Levels)
    ensures LevelsMatchCount(levels, NoFilter) == LevelsItemCount(levels)
    decreases |levels|
  {
    if levels != [] {
      LevelsNoFilterCount(levels[..|levels| - 1]);
      NoFilterKeepsAll(levels[|levels| - 1].1);
    }
  }

  /** With no filter the buckets come back unchanged and the total is the
      size of the whole catalog. */
  lemma NoFilterShowsCatalog(c: Catalog)
    ensures Derive(c, NoFilter).keepForQuests == c.keepForQuests
    ensures Derive(c, NoFilter).keepForProjects == c.keepForProjects
    ensures Derive(c, NoFilter).safeToRecycle == c.safeToRecycle
    ensures TotalResults(Derive(c, NoFilter)) ==
      |c.keepForQuests| + |c.keepForProjects| + |c.safeToRecycle| + WorkshopItemCount(c.workshopUpgrades)
  {
    NoFilterKeepsAll(c.keepForQuests);
    NoFilterKeepsAll(c.keepForProjects);
    NoFilterKeepsAll(c.safeToRecycle);
    TotalResultsCountsMatches(c, NoFilter);
    WorkshopNoFilterCount(c.workshopUpgrades);
  }

  // ----- the page state -----

  /** The `App` component's filter state and the handlers that change it. */
  class CatalogPage {
    var searchTerm: string
    var selectedCategories: seq<string>

    constructor ()
      ensures searchTerm == "" && selectedCategories == []
    {
      searchTerm := "";
      selectedCategories := [];
    }

    function State(): FilterState
      reads this
    {
      FilterState(searchTerm, selectedCategories)
    }

    /** The (debounced) search input commits a new term. */
    method SetSearchTerm(term: string)
      modifies this
      ensures searchTerm == term && selectedCategories == old(selectedCategories)
    {
      searchTerm := term;
    }

    method HandleToggleCategory(category: string)
      modifies this
      ensures selectedCategories == ToggledCategories(old(selectedCategories), category)
      ensures searchTerm == old(searchTerm)
    {
      selectedCategories := ToggledCategories(selectedCategories, category);
    }

    method HandleClearCategories()
      modifies this
      ensures selectedCategories == [] && searchTerm == old(searchTerm)
    {
      selectedCategories := [];
    }

    /** The "Clear All Filters" button. */
    method ClearAllFilters()
      modifies this
      ensures State() == NoFilter
    {
      SetSearchTerm("");
      HandleClearCategories();
    }

    /** The "Found N items" line is shown while some filter is active. */
    predicate ShowsResultCount()
      reads this
    {
      searchTerm != "" || |selectedCategories| > 0
    }

    /** The "No items found" panel. */
    predicate ShowsNoResults(c: Catalog)
      reads this
    {
      TotalResults(Derive(c, State())) == 0 && ShowsResultCount()
    }

    /** The "No items found" panel appears exactly when a filter is active
        and every bucket and the workshop group list come out empty. */
    lemma ShowsNoResultsIff(c: Catalog)
      ensures ShowsNoResults(c) <==>
        (searchTerm != "" || |selectedCategories| > 0)
        && Derive(c, State()).keepForQuests == [] && Derive(c, State()).keepForProjects == []
        && Derive(c, State()).safeToRecycle == [] && Derive(c, State()).workshopUpgrades == []
    {
      TotalResultsZeroIff(c, State());
    }

    /** The panel's "Clear All Filters" button: afterwards no filter is
        active, so neither the result count nor the panel is shown. */
    method ClearFromNoResultsPanel(c: Catalog)
      requires ShowsNoResults(c)
      modifies this
      ensures State() == NoFilter
      ensures !ShowsResultCount() && !ShowsNoResults(c)
    {
      ClearAllFilters();
    }
  }
}
