/** Selection lists and the toggle applied to one of them when a tag button is clicked. */
module Tags {

  /** A tag is a short label such as "bold", "seafood" or "romantic". */
  type Tag = string

  /** No tag occurs twice in the list. */
  predicate Distinct(s: seq<Tag>) {
    forall i, j :: 0 <= i < j < |s| ==> s[i] != s[j]
  }

  /** The list with every occurrence of `t` dropped, the rest in their original order
      (the `filter(selected => selected !== item)` of the selector). */
  function Remove(s: seq<Tag>, t: Tag): (r: seq<Tag>)
    ensures t !in r
    ensures forall x :: x in r <==> x in s && x != t
    ensures multiset(r) == multiset(s)[t := 0]
  {
    if s == [] then []
    else
      assert s == [s[0]] + s[1..];
      if s[0] == t then Remove(s[1..], t) else [s[0]] + Remove(s[1..], t)
  }

  /** Clicking tag `t`: deselect it (all occurrences) when selected, otherwise append it. */
  function Toggle(s: seq<Tag>, t: Tag): (r: seq<Tag>)
    ensures t in r <==> t !in s
    ensures forall x :: x != t ==> (x in r <==> x in s)
    ensures t !in s ==> r == s + [t]
  {
    if t in s then Remove(s, t) else s + [t]
  }

  /** Removing a tag the list does not hold gives back the list itself. */
  lemma {:induction false} RemoveAbsent(s: seq<Tag>, t: Tag)
    requires t !in s
    ensures Remove(s, t) == s
  {
    if s != [] {
      RemoveAbsent(s[1..], t);
    }
  }

  /** Removing from a concatenation removes from each part. */
  lemma {:induction false} RemoveAppend(s: seq<Tag>, u: seq<Tag>, t: Tag)
    ensures Remove(s + u, t) == Remove(s, t) + Remove(u, t)
  {
    if s == [] {
      assert s + u == u;
    } else {
      assert (s + u)[1..] == s[1..] + u;
      RemoveAppend(s[1..], u, t);
    }
  }

  /** Toggling leaves every other tag where it was relative to the rest: once `t` itself is
      dropped from both, the lists before and after agree exactly. */
  lemma ToggleKeepsOrder(s: seq<Tag>, t: Tag)
    ensures Remove(Toggle(s, t), t) == Remove(s, t)
  {
    if t in s {
      RemoveAbsent(Remove(s, t), t);
    } else {
      RemoveAppend(s, [t], t);
      assert Remove([t], t) == [];
      assert Remove(s, t) + [] == Remove(s, t);
    }
  }

  /** Dropping a tag never creates a duplicate. */
  lemma {:induction false} RemoveKeepsDistinct(s: seq<Tag>, t: Tag)
    requires Distinct(s)
    ensures Distinct(Remove(s, t))
  {
    if s != [] {
      assert Distinct(s[1..]);
      RemoveKeepsDistinct(s[1..], t);
      if s[0] != t {
        assert s[0] !in s[1..];
        assert s[0] !in Remove(s[1..], t);
      }
    }
  }

  /** A selection list without duplicates stays without duplicates after a toggle. */
  lemma ToggleKeepsDistinct(s: seq<Tag>, t: Tag)
    requires Distinct(s)
    ensures Distinct(Toggle(s, t))
  {
    if t in s {
      RemoveKeepsDistinct(s, t);
    }
  }

  /** Toggling the same tag twice selects the same tags as before; the list itself comes back
      exactly when the tag was not selected, and otherwise the tag moves to the end. */
  lemma ToggleTwice(s: seq<Tag>, t: Tag)
    ensures forall x :: x in Toggle(Toggle(s, t), t) <==> x in s
    ensures t !in s ==> Toggle(Toggle(s, t), t) == s
    ensures t in s ==> Toggle(Toggle(s, t), t) == Remove(s, t) + [t]
  {
    if t !in s {
      RemoveAppend(s, [t], t);
      RemoveAbsent(s, t);
      assert Remove([t], t) == [];
      assert s + [] == s;
    }
  }
}
