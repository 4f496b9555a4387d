# ARC Raiders item catalog — filtering and sidebar navigation

This project models the logic behind a single-page catalog of ARC Raiders
items. It covers two parts.

**The catalog page.** The page holds a search term and a list of selected
categories. Three item buckets pass through one filter: "keep for quests",
"keep for projects" and "safe to recycle". An item passes when:

- its lower-cased name contains the lower-cased search term, and
- no category is selected, or the item carries at least one selected category.

The workshop-upgrade table maps each bench to its levels and each level to
its items. It becomes a list of `{ bench, level, items }` groups:

- each group holds the filtered items of one level;
- a level whose filtered list is empty is dropped;
- the bench name is turned into a label (a space before each capital, then
  trimmed);
- the level key (`level3`) is parsed to a number.

The page counts the visible items. It shows that count while a filter is
active, and a "no items" panel when a filter is active and the count is
zero. Toggling a category
removes it if selected and appends it otherwise. "Clear All Filters"
empties both filters.

**The sidebar.** The sidebar holds the active entry and the set of open
submenus:

- the menu tree is flattened, in pre-order, into the ids tracked while
  scrolling;
- on scroll, the current section is chosen among the sections whose top
  edge is at most 100 pixels below the top of the viewport (sections
  scrolled above it included); it is the one with the greatest top, and
  ties go to the entry earliest in the flattened order;
- the current section becomes active, and every top-level entry with it as
  a direct child is opened;
- a menu button opens or closes its submenu;
- an entry is highlighted when it or one of its direct children is active.

Files:

- `wrappers.dfy`: an `Option` type. `None` also stands for JavaScript's
  `NaN`.
- `seqs.dfy`: subsequence and no-duplicates facts about sequences.
- `text.dfy`: the JavaScript string operations the core relies on. These
  are `toLowerCase` (ASCII letters), `includes`/`indexOf`, `replace` with a
  string pattern (first occurrence only), the capital-letter regex
  replacement, `trim` (the ECMAScript white-space set) and `parseInt`.
- `catalog.dfy`: the catalog page. It has the item filter, the category
  toggle, the workshop groups (a function plus the nested-loop method
  proved against it), the result count and the page state as a class.
- `sidebar.dfy`: the sidebar. It has the tree flattening (a function plus
  the recursive looping method), choosing the active section, the
  parent-expansion loop, the highlight rule and the component state as a
  class.

React state updates are modelled as methods of a class. `CatalogPage`
holds the search term and the selected categories. `SidebarState` holds
the active id and the open menus. Each updater reassigns one field, as the
source's setters replace one state value.

## Model

| member | source | states |
|---|---|---|
| Text.Lower | src/App.tsx:34 | lower-casing keeps the length and maps each character on its own: A–Z shift to a–z, everything else is unchanged |
| Text.LowerIdempotent | src/App.tsx:34 | lower-casing twice is the same as lower-casing once |
| Text.IndexOfSpec | src/App.tsx:34 | the result is the first position where the pattern occurs, and None exactly when it occurs nowhere |
| Text.ContainsSpec | src/App.tsx:34 | `includes` is true exactly when the pattern occurs at some position |
| Text.ContainsEmpty | src/App.tsx:34 | every string contains the empty string, so an empty search term matches every name |
| Text.ReplaceFirstSpec | src/App.tsx:66 | a string pattern replaces its first occurrence only; with no occurrence the string is unchanged |
| Text.ReplaceFirstOfPrefix | src/App.tsx:66 | deleting a leading `level` gives back the rest of the key |
| Text.TrimStartSpec | src/App.tsx:65 | trimming the start cuts a prefix made only of white space, and what is left does not start with white space |
| Text.TrimEndSpec | src/App.tsx:65 | trimming the end cuts a suffix made only of white space, and what is left does not end with white space |
| Text.TrimSpec | src/App.tsx:65 | the result neither starts nor ends with white space and is a slice of the input cut only at white space |
| Text.TrimDeletesOnlySpaces | src/App.tsx:65 | when the only white space is the space character, trimming removes nothing but spaces |
| Text.DeleteInsertedSpaces | src/App.tsx:65 | the capital-letter replacement only inserts spaces: deleting spaces from its output gives back a space-free input |
| Text.InsertedWhitespaceIsSpace | src/App.tsx:65 | on input without white space, the only white space in the replacement's output is the inserted space |
| Text.LeadingDigitsSpec | src/App.tsx:66 | `parseInt` reads the longest run of digits: every character read is a digit and the next one is not |
| Text.ParseIntDigits | src/App.tsx:66 | `parseInt` of a non-empty run of decimal digits is the number those digits denote |
| Text.DecimalStringValue | src/App.tsx:66 | the decimal rendering of a natural number denotes that number: `DigitsValue` undoes `DecimalString` (the converse fails for strings with leading zeros) |
| Catalog.SharesCategory | src/App.tsx:37 | true exactly when some category of the item is among the selected ones |
| Catalog.SearchIgnoresCase | src/App.tsx:34 | the search test is substring containment of lower-cased strings, and lower-casing the term or the name first changes nothing |
| Catalog.FilterItemsSpec | src/App.tsx:32-40 | the filtered list is an order-preserving subsequence of the input; an item is in it exactly when it is in the input and matches; each matching item keeps its multiplicity |
| Catalog.FilterAllMatch | src/App.tsx:32-40 | when every item matches, filtering returns the input unchanged |
| Catalog.NoFilterKeepsAll | src/App.tsx:32-40 | with an empty term and no category selected, every item is kept |
| Catalog.CategoriesOnlyNarrow | src/App.tsx:35-37 | selecting categories can only remove items: the result is a subsequence of the result with no category selected |
| Catalog.RemoveAll | src/App.tsx:23 | the category is gone, every other category keeps its membership and multiplicity, and the order is kept |
| Catalog.ToggledCategories | src/App.tsx:20-26 | the toggled category flips membership and no other category changes; a new one is appended at the end; removal keeps order |
| Catalog.ToggleKeepsNoDuplicates | src/App.tsx:20-26 | a selection without duplicates keeps none after a toggle |
| Catalog.RemoveAllAbsent | src/App.tsx:23 | removing a category that is not selected leaves the list as it was |
| Catalog.ToggleAbsentTwice | src/App.tsx:20-26 | selecting and then deselecting a category restores the exact list |
| Catalog.TogglePresentTwice | src/App.tsx:20-26 | deselecting and then reselecting a category restores the set of selected categories |
| Catalog.BenchLabelRoundTrip | src/App.tsx:65 | for a bench key without white space, the label has no white space at either end, and deleting its spaces gives the key back |
| Catalog.LevelOfDigits | src/App.tsx:66 | the key `level` followed by decimal digits yields the number the digits denote |
| Catalog.LevelRoundTrip | src/App.tsx:66 | the key of level n parses back to n |
| Catalog.BenchCandidatesLength | src/App.tsx:61-62 | a bench yields one candidate group per level |
| Catalog.BenchCandidatesAt | src/App.tsx:61-62 | one candidate group per level, in level order, holding that level's filtered items |
| Catalog.KeepNonEmptySpec | src/App.tsx:63 | exactly the groups with items survive, in order |
| Catalog.FilteredWorkshopUpgrades | src/App.tsx:57-74 | the nested loops over benches and levels produce exactly the specified group list |
| Catalog.CandidatesLength | src/App.tsx:60-62 | there is one candidate per level of every bench |
| Catalog.CandidateOfLevel | src/App.tsx:60-62 | the candidate group of every level of every bench is among the candidates |
| Catalog.CandidateMembership | src/App.tsx:60-68 | a group is a candidate exactly when it is the candidate of some bench and level of the table |
| Catalog.WorkshopGroupsSpec | src/App.tsx:57-74 | the groups keep table order; each has items and comes from one bench and level; a level's group appears exactly when its filtered list is non-empty |
| Catalog.GroupItemCountKeepNonEmpty | src/App.tsx:63 | dropping empty groups does not change the item count |
| Catalog.TotalResultsCountsMatches | src/App.tsx:76-80 | the total is the number of matching items over the three buckets and every workshop level |
| Catalog.TotalResultsZeroIff | src/App.tsx:76-80 | the total is zero exactly when every bucket and the workshop group list are empty |
| Catalog.TotalResultsCategoriesNarrow | src/App.tsx:76-80 | selecting categories never raises the total over the same search with none selected |
| Catalog.NoFilterShowsCatalog | src/App.tsx:42-80 | with no filter, the buckets are shown in full and the total counts every item of the catalog |
| Catalog.CatalogPage.constructor | src/App.tsx:17-18 | the page starts with an empty search term and no selected category |
| Catalog.CatalogPage.SetSearchTerm | src/App.tsx:85 | the new term replaces the old one and the selection is unchanged |
| Catalog.CatalogPage.HandleToggleCategory | src/App.tsx:20-26 | the selection becomes the toggled selection and the term is unchanged |
| Catalog.CatalogPage.HandleClearCategories | src/App.tsx:28-30 | the selection becomes empty and the term is unchanged |
| Catalog.CatalogPage.ClearAllFilters | src/App.tsx:132-135 | after the button, the page is in the no-filter state |
| Catalog.CatalogPage.ShowsNoResultsIff | src/App.tsx:128 | the "No items found" panel is shown exactly when a filter is active and all three buckets and the workshop group list are empty |
| Catalog.CatalogPage.ClearFromNoResultsPanel | src/App.tsx:128-135 | clicking the panel's button leaves no filter active, so neither the result count nor the panel is shown |
| Sidebar.AllItemIdsAppend | src/components/Sidebar.tsx:22-27 | the ids of two runs of siblings are the first run's ids followed by the second's |
| Sidebar.AllItemIdsSnoc | src/components/Sidebar.tsx:22-27 | an entry's own id comes before its descendants' ids, and both come after the ids of the entries before it |
| Sidebar.AllItemIdsBounds | src/components/Sidebar.tsx:23 | every listed id is non-empty, and there are no more ids than entries in the tree |
| Sidebar.AllItemIdsMembers | src/components/Sidebar.tsx:20-29 | a string is listed exactly when it is the non-empty id of an entry at some depth |
| Sidebar.GetAllItemIds | src/components/Sidebar.tsx:20-29 | the recursive loop returns exactly the pre-order id list |
| Sidebar.InsertByTop | src/components/Sidebar.tsx:49 | the result is non-empty, and its head is the new section unless the old head lies strictly lower |
| Sidebar.InsertByTopPerm | src/components/Sidebar.tsx:49 | inserting adds exactly the new section and loses nothing |
| Sidebar.SortByTopDescSpec | src/components/Sidebar.tsx:49 | the sort is a permutation of its input with the greatest top first |
| Sidebar.InViewAppend | src/components/Sidebar.tsx:48 | the viewport filter acts element by element and keeps order |
| Sidebar.SectionsAppend | src/components/Sidebar.tsx:35-44 | looking up the sections of consecutive id runs keeps their order |
| Sidebar.CurrentSectionStep | src/components/Sidebar.tsx:35-49 | an id that does not qualify leaves the choice unchanged; a qualifying one wins unless the choice among later ids lies strictly lower |
| Sidebar.CurrentSectionIsFirstHighest | src/components/Sidebar.tsx:35-51 | there is no current section exactly when no id has an element whose top edge is at most 100 pixels below the top of the viewport (sections scrolled above it included); otherwise it is the qualifying id with the greatest top, and among equal tops the earliest |
| Sidebar.MissingElementIgnored | src/components/Sidebar.tsx:35-44 | an id whose element does not exist has no effect on the choice |
| Sidebar.ToggledMenus | src/components/Sidebar.tsx:87-97 | the toggled menu flips membership and every other menu keeps its state |
| Sidebar.ToggleMenuTwice | src/components/Sidebar.tsx:87-97 | toggling a menu twice restores the set of open menus |
| Sidebar.HasChildWithId | src/components/Sidebar.tsx:57 | true exactly when some direct child carries the id |
| Sidebar.ExpandParents | src/components/Sidebar.tsx:54-62 | the loop adds to the open set exactly the top-level entries that have the active id as a direct child, and removes nothing |
| Sidebar.IsActiveRule | src/components/Sidebar.tsx:102 | an entry is highlighted exactly when it or one of its direct children is active; deeper descendants do not count |
| Sidebar.HighlightedParentIsOpen | src/components/Sidebar.tsx:54-62 | after auto-expansion, a top-level entry highlighted through a child has children and is open, so the active child is displayed |
| Sidebar.SidebarState.constructor | src/components/Sidebar.tsx:16-17 | the sidebar starts with no active entry and no open menu |
| Sidebar.SidebarState.ToggleMenu | src/components/Sidebar.tsx:87-97 | the open set becomes the toggled set and the active entry is unchanged |
| Sidebar.SidebarState.HandleScroll | src/components/Sidebar.tsx:32-64 | with no current section nothing changes; otherwise its id becomes active and its top-level parents are added to the open set |

## Left out

- Rendering is not modelled: JSX markup, CSS classes, the tier colour tables, the card layout and the group titles. The title capitalises the label's first letter (src/App.tsx:122). Only the conditions deciding what is shown are modelled: the result count, the no-results panel, submenu display and highlighting.
- The item data tables (`src/data/items`) are not part of this model. The catalog is a parameter (`Catalog.Catalog`).
- `useMemo` caching and the `useEffect` subscription are not modelled. Their values are modelled as functions of the current state. The scroll listener's registration and removal are not modelled either.
- Sidebar.SidebarState.HandleScroll recomputes the id list from `items`. The source computes it once per effect run; for the same `items` the two lists are equal.
- The DOM is left out. `document.getElementById` and `getBoundingClientRect` become a map from id to top edge. Tops are integers, not floating-point pixels.
- The `handleClick` smooth scroll (src/components/Sidebar.tsx:72-85) is left out: it is pure DOM geometry and changes no state.
- The image optimisation script and the presentational components are left out.
- Text.Lower folds only ASCII capitals. JavaScript `toLowerCase` also folds non-ASCII letters.
- Text.IsWhitespace lists the ECMAScript white-space and line-terminator characters. It leaves out the Unicode "space separator" category beyond U+00A0.
- Text.SpaceBeforeCapitals inserts a space before ASCII capitals only. The regex class `[A-Z]` is ASCII, so this is exact.
- Text.ParseInt returns `None` where JavaScript returns `NaN`. Its results otherwise follow the integer-returning cases. It does not distinguish `-0` from `0`, and integers are unbounded, where JavaScript rounds values beyond 2^53.
- The workshop table keeps its entries in declaration order. `Object.entries` lists integer-like keys first in ascending order, but the table's keys are bench names and `levelN` strings, which are not integer-like.
- Sidebar.SidebarItem gives an entry without children an empty `children` list. The source treats an absent list and an empty one the same way at every use: it pushes nothing, `hasChildren` is false, and `some` is false.
- Expanding or collapsing all page sections at once is not modelled. No code for it exists in src/App.tsx or src/components/Sidebar.tsx.
