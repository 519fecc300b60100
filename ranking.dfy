/** The recommendation pipeline: score every catalog wine, keep those with a positive score,
    and order them by score, highest first, equal scores in catalog order. */
module Ranking {
  import opened Matching

  /** A catalog wine together with its match score for the current selection. */
  datatype ScoredWine = ScoredWine(wine: Wine, matchScore: real)

  /** Scores never increase along the list. */
  predicate Sorted(xs: seq<ScoredWine>) {
    forall i, j :: 0 <= i < j < |xs| ==> xs[i].matchScore >= xs[j].matchScore
  }

  /** The entries of `xs` whose score is exactly `v`, in their order in `xs`. */
  function WithScore(xs: seq<ScoredWine>, v: real): seq<ScoredWine> {
    if xs == [] then []
    else (if xs[0].matchScore == v then [xs[0]] else []) + WithScore(xs[1..], v)
  }

  /** Every catalog wine paired with its score, in catalog order (the `wines.map`). */
  function ScoreAll(catalog: seq<Wine>, sel: Selection): (r: seq<ScoredWine>)
    ensures |r| == |catalog|
    ensures forall i :: 0 <= i < |r| ==> r[i] == ScoredWine(catalog[i], CalculateMatch(catalog[i], sel))
    ensures forall x :: x in r ==> x.matchScore == CalculateMatch(x.wine, sel)
  {
    if catalog == [] then []
    else [ScoredWine(catalog[0], CalculateMatch(catalog[0], sel))] + ScoreAll(catalog[1..], sel)
  }

  /** The entries with a positive score, in their original order (the `filter`). */
  function KeepPositive(xs: seq<ScoredWine>): (r: seq<ScoredWine>)
    ensures forall x :: x in r <==> x in xs && x.matchScore > 0.0
    ensures |r| <= |xs|
  {
    if xs == [] then []
    else (if xs[0].matchScore > 0.0 then [xs[0]] else []) + KeepPositive(xs[1..])
  }

  /** Puts `x` in front of the first entry of `ys` whose score does not exceed its own. */
  function Insert(x: ScoredWine, ys: seq<ScoredWine>): seq<ScoredWine> {
    if ys == [] || ys[0].matchScore <= x.matchScore then [x] + ys
    else [ys[0]] + Insert(x, ys[1..])
  }

  /** Inserting adds exactly `x`. */
  lemma {:induction false} InsertPermutation(x: ScoredWine, ys: seq<ScoredWine>)
    ensures multiset(Insert(x, ys)) == multiset(ys) + multiset{x}
  {
    if ys != [] && ys[0].matchScore > x.matchScore {
      InsertPermutation(x, ys[1..]);
      assert ys == [ys[0]] + ys[1..];
    }
  }

  /** Stable sort by descending score (the `sort((a, b) => b.matchScore - a.matchScore)`,
      which is stable as `Array.prototype.sort` has to be). */
  function SortByScore(xs: seq<ScoredWine>): (r: seq<ScoredWine>)
    ensures multiset(r) == multiset(xs)
    ensures Sorted(r)
  {
    if xs == [] then []
    else
      assert xs == [xs[0]] + xs[1..];
      InsertSorted(xs[0], SortByScore(xs[1..]));
      InsertPermutation(xs[0], SortByScore(xs[1..]));
      Insert(xs[0], SortByScore(xs[1..]))
  }

  /** Inserting into a sorted list keeps it sorted. */
  lemma {:induction false} InsertSorted(x: ScoredWine, ys: seq<ScoredWine>)
    requires Sorted(ys)
    ensures Sorted(Insert(x, ys))
  {
    if ys != [] && ys[0].matchScore > x.matchScore {
      var rest := Insert(x, ys[1..]);
      InsertSorted(x, ys[1..]);
      InsertPermutation(x, ys[1..]);
      forall k | 0 <= k < |rest| ensures rest[k].matchScore <= ys[0].matchScore {
        assert rest[k] in multiset(rest);
        assert rest[k] == x || rest[k] in multiset(ys[1..]);
      }
    }
  }

  /** The recommendations for a selection: none at all when nothing is selected, otherwise
      the positively scored wines, best first. */
  function Recommend(catalog: seq<Wine>, sel: Selection): (r: seq<ScoredWine>)
    ensures NoneSelected(sel) ==> r == []
    ensures Sorted(r)
  {
    if NoneSelected(sel) then [] else SortByScore(KeepPositive(ScoreAll(catalog, sel)))
  }

  /** What the page shows: nothing yet, a "No matches found" notice, or the ranked list. */
  datatype View = Hidden | NoMatches | Listed(results: seq<ScoredWine>)

  /** The visible outcome for a selection. */
  function ViewOf(catalog: seq<Wine>, sel: Selection): (v: View)
    ensures v == Hidden <==> NoneSelected(sel)
    ensures v.Listed? ==> v.results != [] && v.results == Recommend(catalog, sel)
  {
    if NoneSelected(sel) then Hidden
    else
      var r := Recommend(catalog, sel);
      if r == [] then NoMatches else Listed(r)
  }

  // ---------------------------------------------------------------------------------------
  // Stability

  lemma {:induction false} WithScoreAppend(xs: seq<ScoredWine>, ys: seq<ScoredWine>, v: real)
    ensures WithScore(xs + ys, v) == WithScore(xs, v) + WithScore(ys, v)
  {
    if xs == [] {
      assert xs + ys == ys;
    } else {
      var head := if xs[0].matchScore == v then [xs[0]] else [];
      var zs := xs + ys;
      assert zs[0] == xs[0] && zs[1..] == xs[1..] + ys;
      WithScoreAppend(xs[1..], ys, v);
      calc {
        WithScore(zs, v);
        head + WithScore(xs[1..] + ys, v);
        head + (WithScore(xs[1..], v) + WithScore(ys, v));
        (head + WithScore(xs[1..], v)) + WithScore(ys, v);
        WithScore(xs, v) + WithScore(ys, v);
      }
    }
  }

  /** Inserting `x` places it before every entry of equal score and leaves the order of
      every score group untouched. */
  lemma {:induction false} InsertWithScore(x: ScoredWine, ys: seq<ScoredWine>, v: real)
    ensures WithScore(Insert(x, ys), v)
         == (if x.matchScore == v then [x] else []) + WithScore(ys, v)
  {
    WithScoreSingle(x, v);
    if ys == [] || ys[0].matchScore <= x.matchScore {
      WithScoreAppend([x], ys, v);
    } else {
      var y, tail := ys[0], ys[1..];
      var front := WithScore([y], v);
      WithScoreSingle(y, v);
      InsertSkip(x, ys);
      InsertWithScore(x, tail, v);
      WithScoreAppend([y], Insert(x, tail), v);
      WithScoreAppend([y], tail, v);
      assert ys == [y] + tail;
      if x.matchScore == v {
        assert front == [];
      }
    }
  }

  lemma WithScoreSingle(x: ScoredWine, v: real)
    ensures WithScore([x], v) == if x.matchScore == v then [x] else []
  {
    assert [x][1..] == [];
  }

  lemma InsertSkip(x: ScoredWine, ys: seq<ScoredWine>)
    requires ys != [] && ys[0].matchScore > x.matchScore
    ensures Insert(x, ys) == [ys[0]] + Insert(x, ys[1..])
  {
  }

  /** The sort is stable: within each score, entries keep their relative order. */
  lemma {:induction false} SortStable(xs: seq<ScoredWine>, v: real)
    ensures WithScore(SortByScore(xs), v) == WithScore(xs, v)
  {
    if xs != [] {
      SortStable(xs[1..], v);
      InsertWithScore(xs[0], SortByScore(xs[1..]), v);
      WithScoreAppend([xs[0]], xs[1..], v);
      assert xs == [xs[0]] + xs[1..];
    }
  }

  /** Filtering by a positive score keeps each positive score group whole and in order. */
  lemma {:induction false} KeepPositiveWithScore(xs: seq<ScoredWine>, v: real)
    ensures WithScore(KeepPositive(xs), v) == if v > 0.0 then WithScore(xs, v) else []
  {
    if xs != [] {
      KeepPositiveWithScore(xs[1..], v);
      var head := if xs[0].matchScore > 0.0 then [xs[0]] else [];
      WithScoreAppend(head, KeepPositive(xs[1..]), v);
    }
  }

  lemma {:induction false} ScoreAllAppend(c: seq<Wine>, d: seq<Wine>, sel: Selection)
    ensures ScoreAll(c + d, sel) == ScoreAll(c, sel) + ScoreAll(d, sel)
  {
    if c == [] {
      assert c + d == d;
    } else {
      assert (c + d)[1..] == c[1..] + d;
      ScoreAllAppend(c[1..], d, sel);
    }
  }

  lemma {:induction false} KeepPositiveAppend(xs: seq<ScoredWine>, ys: seq<ScoredWine>)
    ensures KeepPositive(xs + ys) == KeepPositive(xs) + KeepPositive(ys)
  {
    if xs == [] {
      assert xs + ys == ys;
    } else {
      assert (xs + ys)[1..] == xs[1..] + ys;
      KeepPositiveAppend(xs[1..], ys);
    }
  }

  // ---------------------------------------------------------------------------------------
  // What the recommendations are

  /** With an empty selection every score is 0, so even without the early return the
      pipeline would produce no recommendations. */
  lemma {:induction false} EmptySelectionScoresNothing(catalog: seq<Wine>, sel: Selection)
    requires NoneSelected(sel)
    ensures KeepPositive(ScoreAll(catalog, sel)) == []
  {
    if catalog != [] {
      EmptySelectionScoresNothing(catalog[1..], sel);
      var all := ScoreAll(catalog, sel);
      assert all[1..] == ScoreAll(catalog[1..], sel);
      assert all[0].matchScore == 0.0;
    }
  }

  /** The recommendations are exactly the catalog wines with a positive score, each paired
      with that score. */
  lemma RecommendMembers(catalog: seq<Wine>, sel: Selection)
    ensures forall x :: x in Recommend(catalog, sel) <==>
      x.wine in catalog && x.matchScore == CalculateMatch(x.wine, sel) && x.matchScore > 0.0
  {
    var all := ScoreAll(catalog, sel);
    var r := Recommend(catalog, sel);
    if NoneSelected(sel) {
      forall x: ScoredWine | x.wine in catalog && x.matchScore == CalculateMatch(x.wine, sel)
        ensures x.matchScore == 0.0
      {
      }
    } else {
      forall x: ScoredWine ensures x in r <==> x.wine in catalog && x.matchScore == CalculateMatch(x.wine, sel) && x.matchScore > 0.0 {
        assert x in r <==> x in multiset(r);
        if x.wine in catalog && x.matchScore == CalculateMatch(x.wine, sel) {
          var i :| 0 <= i < |catalog| && catalog[i] == x.wine;
          assert all[i] == x;
        }
      }
    }
  }

  /** Each positively scored catalog wine is recommended as many times as the catalog lists
      it: the recommendations are a permutation of the filtered catalog. */
  lemma RecommendPermutation(catalog: seq<Wine>, sel: Selection)
    ensures multiset(Recommend(catalog, sel)) == multiset(KeepPositive(ScoreAll(catalog, sel)))
  {
    if NoneSelected(sel) {
      EmptySelectionScoresNothing(catalog, sel);
    }
  }

  /** Adjacent recommendations have non-increasing scores. */
  lemma RecommendOrder(catalog: seq<Wine>, sel: Selection)
    ensures forall i :: 0 <= i < |Recommend(catalog, sel)| - 1 ==>
      Recommend(catalog, sel)[i].matchScore >= Recommend(catalog, sel)[i + 1].matchScore
  {
  }

  /** Within each score the recommendations keep catalog order; together with the
      ordering this pins the result down completely. */
  lemma RecommendStable(catalog: seq<Wine>, sel: Selection, v: real)
    ensures WithScore(Recommend(catalog, sel), v)
         == if v > 0.0 then WithScore(ScoreAll(catalog, sel), v) else []
  {
    var all := ScoreAll(catalog, sel);
    KeepPositiveWithScore(all, v);
    if NoneSelected(sel) {
      EmptySelectionScoresNothing(catalog, sel);
    } else {
      SortStable(KeepPositive(all), v);
    }
  }

  /** The page hides the results exactly when nothing is selected, reports "No matches
      found" exactly when something is selected but no wine scores above 0, and otherwise
      lists the recommendations. */
  lemma ViewSpec(catalog: seq<Wine>, sel: Selection)
    ensures ViewOf(catalog, sel) == Hidden <==> NoneSelected(sel)
    ensures ViewOf(catalog, sel) == NoMatches <==>
      !NoneSelected(sel) && forall w :: w in catalog ==> CalculateMatch(w, sel) == 0.0
    ensures ViewOf(catalog, sel).Listed? ==> ViewOf(catalog, sel).results == Recommend(catalog, sel)
  {
    RecommendMembers(catalog, sel);
    var r := Recommend(catalog, sel);
    if !NoneSelected(sel) && r != [] {
      assert r[0] in r;
    }
  }
}
