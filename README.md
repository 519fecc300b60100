# Wine selector: matching and ranking engine

A Dafny model of the recommendation engine of the `WineSelector` component
(`src/App.tsx`). A user picks tags in three independent categories (descriptive words,
foods, moods). Each click toggles one tag in one category. After every change the
selector scores each catalog wine: the percentage of selected tags found in that wine's
list for the same category. It drops the wines that score 0 and ranks the rest, highest
score first. The page then shows one of three things: nothing yet (no selection), a
"No matches found" notice, or the ranked list.

Modules, one per part of the engine:

- `Tags` (`tags.dfy`): a selection list and the toggle applied to it.
- `Matching` (`matching.dfy`): the `Wine` record, the three-list `Selection`, per-category
  match counts and the score `CalculateMatch`.
- `Ranking` (`ranking.dfy`): the score/filter/sort pipeline `Recommend`, with a stable
  insertion sort, and the three-way `View` of the result.
- `Selector` (`selector.dfy`): the component state as a class `WineSelector` with the
  fields `selectedWords`, `selectedFoods`, `selectedMoods`, `filteredWines` and
  `showResults`. The methods `ToggleSelection` and `ResetAll` change the selection and then
  call `GetRecommendations` explicitly. In the source, that call is a React effect that
  re-runs after every selection change. The object invariant `Valid()` states that the
  results are always those of the current selection.
- `Scenarios` (`scenarios.dfy`): worked examples, including the shipped six-wine catalog.

Modelling choices:

- The score is an exact `real`: `(matches / selected) * 100`, and 0 when nothing is
  selected. The source computes it in floating point.
- The optional `matchScore` field of the source's `Wine` record becomes a separate
  `ScoredWine` pair, so catalog entries are never annotated in place.
- The sort is stable. The source's comparator has no secondary key, and
  `Array.prototype.sort` is required to be stable (ECMA-262, 2019 edition onward). So wines
  with equal scores keep catalog order. `RecommendStable` states this; together with the
  ordering, it fixes the result completely.
- Selections are lists, as in the code, not sets as a purely set-based reading would have
  them. Toggling an unselected tag appends it, and toggling a selected tag removes every
  occurrence. So toggling a selected tag twice gives the same set of tags but moves that
  tag to the end (`ToggleTwice`).
- The denominator counts selections, not distinct tags. A tag selected both as a word and
  as a mood counts twice (`SameTagTwoCategoriesScenario`). The model keeps this behaviour.

## Model

| member | source | states |
|---|---|---|
| Tags.Remove | src/App.tsx:100 | the result holds no occurrence of the tag, holds every other element of the input and nothing else, and has the input's multiplicities with the tag's set to zero |
| Tags.Toggle | src/App.tsx:98-104 | the tag is in the result iff it was not in the input; every other tag's membership is unchanged; an absent tag is appended at the end |
| Tags.ToggleKeepsOrder | src/App.tsx:98-104 | with the toggled tag dropped from both, the lists before and after the toggle are equal, so all other elements keep their relative order |
| Tags.RemoveAbsent | src/App.tsx:100 | filtering out a tag that is not present returns the list unchanged |
| Tags.RemoveKeepsDistinct | src/App.tsx:100 | filtering a duplicate-free list leaves it duplicate-free |
| Tags.ToggleKeepsDistinct | src/App.tsx:98-104 | a duplicate-free selection list stays duplicate-free after a toggle |
| Tags.ToggleTwice | src/App.tsx:98-104 | toggling twice restores the set of tags; it restores the list exactly when the tag was absent, and otherwise moves the tag to the end |
| Matching.TotalSelected | src/App.tsx:111 | the total number of selected tags is 0 iff all three lists are empty |
| Matching.CountIn | src/App.tsx:107-109 | the match count of one category is at most the number of selected tags; it equals that number iff every selected tag is in the wine's list, and is 0 iff none is |
| Matching.Matches | src/App.tsx:107-112 | the total match count is at most the total number selected; it equals it iff every selected tag is in the wine's list of the same category, and is 0 iff none is |
| Matching.CalculateMatch | src/App.tsx:106-115 | the score lies in [0, 100] and is 0 when nothing is selected |
| Matching.Percent | src/App.tsx:114 | a percentage of at most the whole lies in [0, 100] |
| Matching.PercentExtremes | src/App.tsx:114 | the percentage is 100 iff part equals whole, and 0 iff part is 0 |
| Matching.PercentMonotone | src/App.tsx:114 | for a fixed whole, percentages compare as their parts do |
| Matching.ScoreFullIff | src/App.tsx:107-114 | with a non-empty selection, the score is exactly 100 iff every selected tag is in the wine's list of the same category |
| Matching.ScoreZeroIff | src/App.tsx:107-114 | the score is exactly 0 iff no selected tag is in the wine's list of the same category |
| Matching.ScoreOrder | src/App.tsx:111-114 | within one selection, ordering by score is the same as ordering by match count (with nothing selected, both are all 0) |
| Ranking.ScoreAll | src/App.tsx:124-127 | one scored entry per catalog wine, in catalog order, each carrying that wine's score |
| Ranking.KeepPositive | src/App.tsx:130 | the kept entries are exactly the input entries with a positive score |
| Ranking.InsertPermutation | src/App.tsx:131 | insertion adds exactly the inserted entry |
| Ranking.InsertSorted | src/App.tsx:131 | inserting into a list ordered by non-increasing score keeps it ordered |
| Ranking.SortByScore | src/App.tsx:131 | the sort returns a permutation of its input with non-increasing scores |
| Ranking.InsertWithScore | src/App.tsx:131 | an inserted entry goes before every entry of equal score; all score groups keep their order |
| Ranking.SortStable | src/App.tsx:131 | the sort is stable: for every score, the entries with that score keep their relative order |
| Ranking.KeepPositiveWithScore | src/App.tsx:130 | filtering keeps every positive score group whole and in order, and removes all others |
| Ranking.Recommend | src/App.tsx:117-135 | no recommendations when nothing is selected; the recommendations are ordered by non-increasing score |
| Ranking.EmptySelectionScoresNothing | src/App.tsx:114-121 | with nothing selected, every wine scores 0, so the pipeline would keep nothing even without the early return |
| Ranking.RecommendMembers | src/App.tsx:124-130 | an entry is recommended iff its wine is in the catalog, it carries that wine's score, and the score is positive |
| Ranking.RecommendPermutation | src/App.tsx:124-131 | the recommendations are a permutation of the positively scored catalog entries, so each appears as often as the catalog lists it |
| Ranking.RecommendOrder | src/App.tsx:129-131 | adjacent recommendations have non-increasing scores |
| Ranking.RecommendStable | src/App.tsx:129-131 | for each positive score, the recommendations with that score appear in catalog order; no entry has a score of 0 or below |
| Ranking.ViewOf | src/App.tsx:303-331 | the results panel is hidden iff nothing is selected, and a listed view always holds a non-empty list equal to the recommendations |
| Ranking.ViewSpec | src/App.tsx:303-331 | results are hidden iff nothing is selected; "No matches found" shows iff something is selected and every catalog wine scores 0; otherwise the ranked list shows |
| Selector.WineSelector.constructor | src/App.tsx:17-21 | the initial state has nothing selected, no results and hidden results, and satisfies the invariant |
| Selector.WineSelector.GetRecommendations | src/App.tsx:117-135 | with nothing selected, the results are cleared and hidden; otherwise they are shown and equal the ranked recommendations of the current selection |
| Selector.WineSelector.ToggleSelection | src/App.tsx:98-104 | the clicked category's list becomes its toggle, the other two are unchanged, the results are recomputed for the new selection and shown iff something is selected, and the invariant holds |
| Selector.WineSelector.ResetAll | src/App.tsx:137-147 | all three selections and the results are empty and the results are hidden, also after the recomputation that follows |
| Selector.WineSelector.CurrentView | src/App.tsx:303-331 | the page's outcome equals the view computed from the catalog and the current selection |
| Scenarios.SingleWordScenario | src/App.tsx:106-135 | selecting "bold" against one wine with it and one without recommends exactly the first, at 100 |
| Scenarios.HalfScenario | src/App.tsx:106-115 | two words selected and one matched gives 50 |
| Scenarios.TwoThirdsScenario | src/App.tsx:106-115 | one tag per category selected and two matched gives 200/3 |
| Scenarios.SameTagTwoCategoriesScenario | src/App.tsx:111 | one tag selected under two categories counts twice in the denominator |
| Scenarios.BoldScore | src/App.tsx:106-115 | with only "bold" selected, a wine scores 100 if it lists "bold" and 0 otherwise |
| Scenarios.BoldKept | src/App.tsx:124-130 | only the two wines listing "bold" are kept, each at 100 |
| Scenarios.BoldRanking | src/App.tsx:129-131 | two wines with equal scores are recommended in catalog order |
| Scenarios.CatalogBoldScenario | src/App.tsx:23-90 | on the shipped catalog, "bold" alone recommends wine 1 then wine 6, both at 100 |

## Left out

- Rendering (`SelectionButton`, `WineCard` and the page markup, src/App.tsx:149-335) is presentation only. Its three-way outcome is modelled by `Ranking.ViewOf`.
- React hook scheduling (`useState`, `useEffect`) is replaced by plain field updates followed by a synchronous `GetRecommendations` call. Batched or asynchronous re-renders are not modelled.
- Floating point: the IEEE division at line 114 and the subtraction comparator at line 131 become exact real arithmetic, so a score such as 200/3 is kept exact. The display rounding with `Math.round` at line 199 is left out with the rest of the rendering.
- The option lists `wordOptions`, `foodOptions` and `moodOptions` (lines 92-96) are static configuration. Any string can be toggled in the model.
- The catalog is a parameter. The six shipped wines appear only as the example `Scenarios.Catalog`.
