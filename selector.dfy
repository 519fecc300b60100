/** The selector's state: three selection lists, the current recommendations and whether the
    results panel is shown. The source re-runs `getRecommendations` in an effect after every
    selection change; here each mutating method ends with that call explicitly. */
module Selector {
  import opened Tags
  import opened Matching
  import opened Ranking

  class WineSelector {
    /** The catalog, fixed for the lifetime of the selector. */
    const wines: seq<Wine>

    var selectedWords: seq<Tag>
    var selectedFoods: seq<Tag>
    var selectedMoods: seq<Tag>
    var filteredWines: seq<ScoredWine>
    var showResults: bool

    /** The current selection as one value. */
    function CurrentSelection(): Selection
      reads this
    {
      Selection(selectedWords, selectedFoods, selectedMoods)
    }

    /** The selection list of one category. */
    function Selected(c: Category): seq<Tag>
      reads this
    {
      match c
      case Words => selectedWords
      case Foods => selectedFoods
      case Moods => selectedMoods
    }

    /** The results are those of the current selection (the effect has run), and the
        selection lists hold no tag twice. */
    ghost predicate Valid()
      reads this
    {
      && Distinct(selectedWords) && Distinct(selectedFoods) && Distinct(selectedMoods)
      && filteredWines == Recommend(wines, CurrentSelection())
      && showResults == !NoneSelected(CurrentSelection())
    }

    /** The initial state: nothing selected, no results, results hidden; the recomputation
        run once on mount leaves it so. */
    constructor (catalog: seq<Wine>)
      ensures Valid()
      ensures wines == catalog
      ensures selectedWords == [] && selectedFoods == [] && selectedMoods == []
      ensures filteredWines == [] && !showResults
    {
      wines := catalog;
      selectedWords, selectedFoods, selectedMoods := [], [], [];
      filteredWines, showResults := [], false;
      new;
      GetRecommendations();
    }

    /** Recomputes the results from the current selection: with nothing selected they are
        cleared and hidden; otherwise every wine is scored, those scoring 0 are dropped, the
        rest are ranked best first, and the results are shown. */
    method GetRecommendations()
      modifies this`filteredWines, this`showResults
      ensures NoneSelected(CurrentSelection()) ==> filteredWines == []
      ensures showResults == !NoneSelected(CurrentSelection())
      ensures filteredWines == Recommend(wines, CurrentSelection())
    {
      if selectedWords == [] && selectedFoods == [] && selectedMoods == [] {
        filteredWines := [];
        showResults := false;
        return;
      }
      var winesWithScores := ScoreAll(wines, CurrentSelection());
      var sortedWines := SortByScore(KeepPositive(winesWithScores));
      filteredWines := sortedWines;
      showResults := true;
    }

    /** A click on tag `t` of category `c`: the tag is deselected if selected and appended
        otherwise, the other categories are untouched, and the results are recomputed. */
    method ToggleSelection(c: Category, t: Tag)
      requires Valid()
      modifies this
      ensures Valid()
      ensures Selected(c) == Toggle(old(Selected(c)), t)
      ensures forall d :: d != c ==> Selected(d) == old(Selected(d))
      ensures filteredWines == Recommend(wines, CurrentSelection())
      ensures showResults == !NoneSelected(CurrentSelection())
    {
      var toggled := Toggle(Selected(c), t);
      ToggleKeepsDistinct(Selected(c), t);
      match c {
        case Words => selectedWords := toggled;
        case Foods => selectedFoods := toggled;
        case Moods => selectedMoods := toggled;
      }
      assert Distinct(selectedWords) && Distinct(selectedFoods) && Distinct(selectedMoods);
      GetRecommendations();
    }

    /** Clears all three selections and the results and hides them; the recomputation that
        follows leaves that state as it is. */
    method ResetAll()
      requires Valid()
      modifies this
      ensures Valid()
      ensures selectedWords == [] && selectedFoods == [] && selectedMoods == []
      ensures filteredWines == [] && !showResults
    {
      selectedWords := [];
      selectedFoods := [];
      selectedMoods := [];
      filteredWines := [];
      showResults := false;
      GetRecommendations();
    }

    /** What the page shows for the current state. */
    function CurrentView(): (v: View)
      reads this
      requires Valid()
      ensures v == ViewOf(wines, CurrentSelection())
    {
      if !showResults then Hidden
      else if filteredWines == [] then NoMatches
      else Listed(filteredWines)
    }
  }
}
