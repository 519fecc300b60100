/** The catalog entry and the match score of one wine against the current selection. */
module Matching {
  import opened Tags

  /** A catalog wine. The optional `matchScore` field of the source record is not part of the
      entry: a scored wine is a separate value (see Ranking.ScoredWine). */
  datatype Wine = Wine(
    id: int,
    name: string,
    collection: string,
    description: string,
    words: seq<Tag>,
    foods: seq<Tag>,
    moods: seq<Tag>,
    color: string,
    calories: string)

  /** The user's three independent selection lists. */
  datatype Selection = Selection(words: seq<Tag>, foods: seq<Tag>, moods: seq<Tag>)

  /** The three categories a tag button can belong to. */
  datatype Category = Words | Foods | Moods

  /** Nothing selected in any category. */
  predicate NoneSelected(sel: Selection) {
    sel.words == [] && sel.foods == [] && sel.moods == []
  }

  /** Number of selected tags, all categories together, a tag selected in two categories
      counting twice. */
  function TotalSelected(sel: Selection): (n: nat)
    ensures n == 0 <==> NoneSelected(sel)
  {
    |sel.words| + |sel.foods| + |sel.moods|
  }

  /** How many entries of `selected` occur in `tags`
      (`selected.filter(x => tags.includes(x)).length`). */
  function CountIn(selected: seq<Tag>, tags: seq<Tag>): (n: nat)
    ensures n <= |selected|
    ensures n == |selected| <==> forall i :: 0 <= i < |selected| ==> selected[i] in tags
    ensures n == 0 <==> forall i :: 0 <= i < |selected| ==> selected[i] !in tags
  {
    if selected == [] then 0
    else (if selected[0] in tags then 1 else 0) + CountIn(selected[1..], tags)
  }

  /** Every selected tag is in the wine's list of the same category. */
  predicate AllSelectedPresent(w: Wine, sel: Selection) {
    && (forall t :: t in sel.words ==> t in w.words)
    && (forall t :: t in sel.foods ==> t in w.foods)
    && (forall t :: t in sel.moods ==> t in w.moods)
  }

  /** No selected tag is in the wine's list of the same category. */
  predicate NoSelectedPresent(w: Wine, sel: Selection) {
    && (forall t :: t in sel.words ==> t !in w.words)
    && (forall t :: t in sel.foods ==> t !in w.foods)
    && (forall t :: t in sel.moods ==> t !in w.moods)
  }

  /** Total matches over the three categories, each category's selection tested only against
      the wine's list for that category. */
  function Matches(w: Wine, sel: Selection): (n: nat)
    ensures n <= TotalSelected(sel)
    ensures n == TotalSelected(sel) <==> AllSelectedPresent(w, sel)
    ensures n == 0 <==> NoSelectedPresent(w, sel)
  {
    CountIn(sel.words, w.words) + CountIn(sel.foods, w.foods) + CountIn(sel.moods, w.moods)
  }

  /** The match score: the percentage of selected tags present in the wine, 0 when nothing
      is selected. */
  function CalculateMatch(w: Wine, sel: Selection): (score: real)
    ensures 0.0 <= score <= 100.0
    ensures NoneSelected(sel) ==> score == 0.0
  {
    var total := TotalSelected(sel);
    if total > 0 then Percent(Matches(w, sel), total) else 0.0
  }

  /** `part / whole * 100` over exact reals. */
  function Percent(part: nat, whole: nat): (p: real)
    requires 0 < whole
    ensures part <= whole ==> 0.0 <= p <= 100.0
  {
    QuotientBounds(part as real, whole as real);
    (part as real / whole as real) * 100.0
  }

  lemma QuotientBounds(x: real, d: real)
    requires 0.0 <= x && 0.0 < d
    ensures 0.0 <= x / d
    ensures x <= d ==> x / d <= 1.0
  {
  }

  /** A percentage reaches 100 exactly when every selection hits and is 0 exactly when
      none does. */
  lemma PercentExtremes(part: nat, whole: nat)
    requires 0 < whole
    ensures Percent(part, whole) == 100.0 <==> part == whole
    ensures Percent(part, whole) == 0.0 <==> part == 0
  {
    var q := part as real / whole as real;
    assert q * whole as real == part as real;
  }

  /** For a fixed number of selections, the percentage grows with the number of hits. */
  lemma PercentMonotone(m: nat, n: nat, whole: nat)
    requires 0 < whole
    ensures Percent(m, whole) <= Percent(n, whole) <==> m <= n
  {
    var p, q, d := m as real / whole as real, n as real / whole as real, whole as real;
    assert p * d == m as real;
    assert q * d == n as real;
    ScaleOrder(p, q, d);
    assert p <= q <==> m <= n;
    ScaleOrder(p, q, 100.0);
    assert Percent(m, whole) == p * 100.0 && Percent(n, whole) == q * 100.0;
  }

  /** Multiplying by a positive factor preserves order. */
  lemma ScaleOrder(p: real, q: real, d: real)
    requires 0.0 < d
    ensures p <= q <==> p * d <= q * d
  {
    assert q * d - p * d == (q - p) * d;
    if p <= q {
      NonNegativeProduct(q - p, d);
    } else {
      NonNegativeProduct(p - q, d);
      assert (p - q) * d != 0.0;
    }
  }

  lemma NonNegativeProduct(a: real, b: real)
    requires 0.0 <= a && 0.0 <= b
    ensures 0.0 <= a * b
  {
  }

  /** With something selected, the score is exactly 100 iff every selected tag is in the
      wine's list of the same category. */
  lemma ScoreFullIff(w: Wine, sel: Selection)
    requires !NoneSelected(sel)
    ensures CalculateMatch(w, sel) == 100.0 <==> AllSelectedPresent(w, sel)
  {
    PercentExtremes(Matches(w, sel), TotalSelected(sel));
  }

  /** The score is exactly 0 iff no selected tag is in the wine's list of the same category
      (which is the case in particular when nothing is selected). */
  lemma ScoreZeroIff(w: Wine, sel: Selection)
    ensures CalculateMatch(w, sel) == 0.0 <==> NoSelectedPresent(w, sel)
  {
    if !NoneSelected(sel) {
      PercentExtremes(Matches(w, sel), TotalSelected(sel));
    }
  }

  /** For one selection, comparing scores is the same as comparing match counts, since all
      wines share the denominator. */
  lemma ScoreOrder(a: Wine, b: Wine, sel: Selection)
    ensures CalculateMatch(a, sel) <= CalculateMatch(b, sel) <==> Matches(a, sel) <= Matches(b, sel)
  {
    if NoneSelected(sel) {
      assert Matches(a, sel) == 0 && Matches(b, sel) == 0;
    } else {
      PercentMonotone(Matches(a, sel), Matches(b, sel), TotalSelected(sel));
    }
  }
}
