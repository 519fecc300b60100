/** Worked examples of the scoring and ranking rules on small catalogs, and on the catalog
    the application ships with. */
module Scenarios {
  import opened Matching
  import opened Ranking

  /** A wine with the given tags and no display metadata. */
  function Bottle(id: int, words: seq<string>, foods: seq<string>, moods: seq<string>): Wine {
    Wine(id, "", "", "", words, foods, moods, "", "")
  }

  /** One word selected; one wine has it and one does not: only the first is recommended,
      at 100. */
  lemma SingleWordScenario()
    ensures
      var a := Bottle(1, ["bold", "rich"], [], []);
      var b := Bottle(2, ["crisp"], [], []);
      Recommend([a, b], Selection(["bold"], [], [])) == [ScoredWine(a, 100.0)]
  {
    var a := Bottle(1, ["bold", "rich"], [], []);
    var b := Bottle(2, ["crisp"], [], []);
    var sel := Selection(["bold"], [], []);
    BoldScore(a);
    BoldScore(b);
    var sa, sb := ScoredWine(a, 100.0), ScoredWine(b, 0.0);
    assert ScoreAll([a, b], sel) == [sa, sb];
    assert KeepPositive([sa, sb]) == [sa] by {
      assert [sa, sb][1..] == [sb];
      assert [sb][1..] == [];
    }
    SortSingleton(sa);
  }

  lemma SortSingleton(x: ScoredWine)
    ensures SortByScore([x]) == [x]
  {
    assert [x][1..] == [];
  }

  /** Two words selected, the wine has one of them: 50. */
  lemma HalfScenario()
    ensures CalculateMatch(Bottle(1, ["bold"], [], []), Selection(["bold", "crisp"], [], [])) == 50.0
  {
    assert CountIn(["bold", "crisp"], ["bold"]) == 1;
  }

  /** One tag in each category, the wine has two of the three: 200/3. */
  lemma TwoThirdsScenario()
    ensures
      var w := Bottle(1, ["bold"], ["lamb"], ["casual"]);
      CalculateMatch(w, Selection(["bold"], ["lamb"], ["romantic"])) == 200.0 / 3.0
  {
    assert CountIn(["romantic"], ["casual"]) == 0;
  }

  /** The same tag selected under two categories counts twice in the denominator, though a
      wine listing it under only one of them matches once. */
  lemma SameTagTwoCategoriesScenario()
    ensures
      var w := Bottle(1, ["balanced"], [], []);
      CalculateMatch(w, Selection(["balanced"], [], ["balanced"])) == 50.0
  {
    assert CountIn(["balanced"], []) == 0;
  }

  /** The six wines the application ships with. */
  const Catalog: seq<Wine> := [
    Wine(1, "Cabernet Sauvignon", "The Classics",
      "Full-bodied with rich berry flavors and hints of oak",
      ["bold", "rich", "sophisticated", "intense", "classic"],
      ["red meat", "grilled steak", "chocolate", "aged cheese", "lamb"],
      ["romantic", "confident", "sophisticated", "evening", "celebratory"],
      "#722F37", "Regular"),
    Wine(2, "Pinot Grigio", "The Classics",
      "Crisp and refreshing with citrus and green apple notes",
      ["crisp", "light", "fresh", "clean", "bright"],
      ["seafood", "salads", "chicken", "pasta", "light appetizers"],
      ["casual", "refreshing", "social", "daytime", "relaxed"],
      "#F5F5DC", "Regular"),
    Wine(3, "Sauvignon Blanc (80 Calories)", "80 Calories",
      "Crisp, vibrant, and full of citrus and tropical notes",
      ["vibrant", "tropical", "zesty", "energetic", "healthy"],
      ["sushi", "goat cheese", "herb dishes", "citrus salads", "oysters"],
      ["energetic", "health-conscious", "bright", "active", "uplifting"],
      "#FFFACD", "80"),
    Wine(4, "Chardonnay (Lower Calorie)", "Lower Calorie",
      "Smooth and buttery with apple and vanilla undertones",
      ["smooth", "buttery", "elegant", "balanced", "refined"],
      ["lobster", "creamy pasta", "roasted chicken", "cheese", "risotto"],
      ["elegant", "refined", "comfortable", "sophisticated", "balanced"],
      "#F7E7CE", "Lower"),
    Wine(5, "Pinot Grigio (Lower Calorie)", "Lower Calorie",
      "Light and refreshing with a clean, crisp finish",
      ["light", "crisp", "clean", "delicate", "pure"],
      ["fish", "summer salads", "vegetables", "cheese", "fruit"],
      ["light", "refreshing", "casual", "healthy", "carefree"],
      "#F0F8FF", "Lower"),
    Wine(6, "Cabernet Sauvignon (Lower Calorie)", "Lower Calorie",
      "Bold red with reduced calories but full flavor",
      ["bold", "satisfying", "robust", "full-flavored", "balanced"],
      ["lean meats", "vegetables", "mushrooms", "herbs", "chocolate"],
      ["satisfied", "balanced", "health-conscious", "robust", "evening"],
      "#8B0000", "Lower")
  ]

  /** With only "bold" selected, a wine scores 100 when it lists "bold" and 0 otherwise. */
  lemma BoldScore(w: Wine)
    ensures CalculateMatch(w, Selection(["bold"], [], [])) == if "bold" in w.words then 100.0 else 0.0
  {
    assert CountIn(["bold"], w.words) == if "bold" in w.words then 1 else 0;
  }

  /** A wine lacking every selected tag contributes nothing to the filtered list. */
  lemma {:induction false} KeepPositiveSkipsZero(c: seq<Wine>, sel: Selection)
    requires forall i :: 0 <= i < |c| ==> CalculateMatch(c[i], sel) == 0.0
    ensures KeepPositive(ScoreAll(c, sel)) == []
  {
    if c != [] {
      KeepPositiveSkipsZero(c[1..], sel);
      assert ScoreAll(c, sel)[1..] == ScoreAll(c[1..], sel);
    }
  }

  /** A wine listing "bold" is kept, at 100. */
  lemma BoldOne(w: Wine)
    requires "bold" in w.words
    ensures KeepPositive(ScoreAll([w], Selection(["bold"], [], []))) == [ScoredWine(w, 100.0)]
  {
    BoldScore(w);
  }

  /** Wines that do not list "bold" are all dropped. */
  lemma BoldNone(middle: seq<Wine>)
    requires forall i :: 0 <= i < |middle| ==> "bold" !in middle[i].words
    ensures KeepPositive(ScoreAll(middle, Selection(["bold"], [], []))) == []
  {
    var sel := Selection(["bold"], [], []);
    forall i | 0 <= i < |middle| ensures CalculateMatch(middle[i], sel) == 0.0 {
      BoldScore(middle[i]);
    }
    KeepPositiveSkipsZero(middle, sel);
  }

  /** Scoring and filtering a catalog in three parts works part by part. */
  lemma KeepThreeParts(a: seq<Wine>, b: seq<Wine>, c: seq<Wine>, sel: Selection)
    ensures KeepPositive(ScoreAll(a + b + c, sel))
         == KeepPositive(ScoreAll(a, sel)) + KeepPositive(ScoreAll(b, sel)) + KeepPositive(ScoreAll(c, sel))
  {
    ScoreAllAppend(a + b, c, sel);
    ScoreAllAppend(a, b, sel);
    KeepPositiveAppend(ScoreAll(a, sel) + ScoreAll(b, sel), ScoreAll(c, sel));
    KeepPositiveAppend(ScoreAll(a, sel), ScoreAll(b, sel));
  }

  /** Selecting only "bold" in a catalog where exactly the first and the last wine list it
      keeps those two, at 100 ... */
  lemma {:induction false} BoldKept(first: Wine, middle: seq<Wine>, last: Wine)
    requires "bold" in first.words && "bold" in last.words
    requires forall i :: 0 <= i < |middle| ==> "bold" !in middle[i].words
    ensures KeepPositive(ScoreAll([first] + middle + [last], Selection(["bold"], [], [])))
         == [ScoredWine(first, 100.0), ScoredWine(last, 100.0)]
  {
    KeepThreeParts([first], middle, [last], Selection(["bold"], [], []));
    BoldOne(first);
    BoldNone(middle);
    BoldOne(last);
  }

  /** ... and recommends them in catalog order, their scores being equal. */
  lemma {:induction false} BoldRanking(first: Wine, middle: seq<Wine>, last: Wine)
    requires "bold" in first.words && "bold" in last.words
    requires forall i :: 0 <= i < |middle| ==> "bold" !in middle[i].words
    ensures Recommend([first] + middle + [last], Selection(["bold"], [], []))
         == [ScoredWine(first, 100.0), ScoredWine(last, 100.0)]
  {
    BoldKept(first, middle, last);
    var kept := [ScoredWine(first, 100.0), ScoredWine(last, 100.0)];
    assert kept[1..] == [kept[1]];
    SortSingleton(kept[1]);
  }

  /** On the shipped catalog, selecting only "bold" recommends the two Cabernets (ids 1
      and 6) at 100, the classic one first. */
  lemma CatalogBoldScenario()
    ensures Recommend(Catalog, Selection(["bold"], [], []))
         == [ScoredWine(Catalog[0], 100.0), ScoredWine(Catalog[5], 100.0)]
    ensures Catalog[0].id == 1 && Catalog[5].id == 6
  {
    var c := Catalog;
    assert c == [c[0]] + c[1..5] + [c[5]];
    BoldRanking(c[0], c[1..5], c[5]);
  }
}
