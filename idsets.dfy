/**
 * A JavaScript `Set` of item ids. A `Set` keeps its members in insertion
 * order, and that order is what `[...set]` writes to storage, so the model is
 * a sequence without repetitions.
 */
module IdSets {
  import opened Views

  /** An item's `_id`. */
  type Id = string

  /** `set.add(x)`: a new member goes to the end; a present one stays where it is. */
  function Add(s: seq<Id>, x: Id): (r: seq<Id>)
    ensures forall y :: y in r <==> y in s || y == x
    ensures Distinct(s) ==> Distinct(r)
  {
    if x in s then s else s + [x]
  }

  /** `set.delete(x)`: the other members keep their order. */
  function Delete(s: seq<Id>, x: Id): (r: seq<Id>)
    ensures forall y :: y in r <==> y in s && y != x
    ensures Distinct(s) ==> Distinct(r)
  {
    var r := Keep(s, y => y != x);
    assert forall y :: y in r <==> y in s && y != x by {
      forall y ensures y in r <==> y in s && y != x {
        KeepMembers(s, y => y != x, y);
      }
    }
    if Distinct(s) then KeepDistinct(s, y => y != x); r else r
  }

  /**
   * One click on a toggle: delete when present, add when absent. It flips the
   * membership of `x` and of nothing else.
   */
  function Toggle(s: seq<Id>, x: Id): (r: seq<Id>)
    ensures x in r <==> x !in s
    ensures forall y :: y != x ==> (y in r <==> y in s)
    ensures Distinct(s) ==> Distinct(r)
  {
    if x in s then Delete(s, x) else Add(s, x)
  }

  /** Toggling twice restores the members; from an absent `x` it restores the very sequence. */
  lemma {:induction false} ToggleTwice(s: seq<Id>, x: Id)
    ensures forall y :: y in Toggle(Toggle(s, x), x) <==> y in s
    ensures x !in s ==> Toggle(Toggle(s, x), x) == s
  {
    if x !in s {
      assert Toggle(s, x) == s + [x];
      KeepSnoc(s, x, y => y != x);
      KeepAll(s, y => y != x);
    }
  }

  /** `new Set(xs)`: the members of `xs` in order of first occurrence. */
  function FromList(xs: seq<Id>): (r: seq<Id>)
    ensures Distinct(r)
    ensures forall y :: y in r <==> y in xs
  {
    if xs == [] then []
    else
      var init := xs[..|xs| - 1];
      assert xs == init + [xs[|xs| - 1]];
      Add(FromList(init), xs[|xs| - 1])
  }

  /** Reloading a stored list without repetitions gives back that list. */
  lemma {:induction false} FromListDistinct(xs: seq<Id>)
    requires Distinct(xs)
    ensures FromList(xs) == xs
    decreases |xs|
  {
    if xs != [] {
      var init := xs[..|xs| - 1];
      FromListDistinct(init);
      assert xs == init + [xs[|xs| - 1]];
    }
  }
}
