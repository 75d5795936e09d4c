/**
 * `Array.prototype.filter` as a function on sequences, and what it means:
 * the result is the order-preserving sub-list of exactly the elements that
 * satisfy the predicate.
 */
module Views {

  /** `xs.filter(p)` */
  function Keep<T(==)>(xs: seq<T>, p: T -> bool): (r: seq<T>)
    ensures |r| <= |xs|
    ensures forall x :: x in r ==> x in xs && p(x)
  {
    if xs == [] then []
    else
      var init := xs[..|xs| - 1];
      var last := xs[|xs| - 1];
      Keep(init, p) + (if p(last) then [last] else [])
  }

  /**
   * `idx` lists, in increasing order, the positions of `xs` that `r` was taken
   * from, and those positions are exactly the ones whose element satisfies `p`.
   */
  predicate Selection<T(==)>(xs: seq<T>, p: T -> bool, r: seq<T>, idx: seq<nat>) {
    && |idx| == |r|
    && (forall k :: 0 <= k < |idx| ==> idx[k] < |xs| && r[k] == xs[idx[k]])
    && (forall k, l :: 0 <= k < l < |idx| ==> idx[k] < idx[l])
    && (forall i :: 0 <= i < |xs| ==> (p(xs[i]) <==> i in idx))
  }

  /** `r` is the order-preserving sub-list of the elements of `xs` that satisfy `p`. */
  ghost predicate IsSelection<T>(xs: seq<T>, p: T -> bool, r: seq<T>) {
    exists idx :: Selection(xs, p, r, idx)
  }

  /** The positions of `xs` whose element satisfies `p`, in increasing order. */
  function Positions<T(==)>(xs: seq<T>, p: T -> bool): seq<nat>
  {
    if xs == [] then []
    else Positions(xs[..|xs| - 1], p) + (if p(xs[|xs| - 1]) then [|xs| - 1] else [])
  }

  lemma {:induction false} KeepSelects<T>(xs: seq<T>, p: T -> bool)
    ensures Selection(xs, p, Keep(xs, p), Positions(xs, p))
    decreases |xs|
  {
    if xs != [] {
      var n := |xs| - 1;
      var init := xs[..n];
      var last := xs[n];
      assert xs == init + [last];
      KeepSelects(init, p);
      SelectionSnoc(init, last, p, Keep(init, p), Positions(init, p));
      if p(last) {
        assert Keep(xs, p) == Keep(init, p) + [last];
        assert Positions(xs, p) == Positions(init, p) + [n];
      } else {
        assert Keep(xs, p) == Keep(init, p);
        assert Positions(xs, p) == Positions(init, p);
      }
    }
  }

  /** A selection of a list extends to the list with one more element. */
  lemma SelectionSnoc<T>(init: seq<T>, x: T, p: T -> bool, r: seq<T>, idx: seq<nat>)
    requires Selection(init, p, r, idx)
    ensures p(x) ==> Selection(init + [x], p, r + [x], idx + [|init|])
    ensures !p(x) ==> Selection(init + [x], p, r, idx)
  {
    var xs := init + [x];
    assert forall i :: 0 <= i < |init| ==> xs[i] == init[i];
    if p(x) {
      var r', idx' := r + [x], idx + [|init|];
      assert forall k :: 0 <= k < |idx| ==> idx'[k] == idx[k] && r'[k] == r[k];
      assert forall i :: 0 <= i < |init| ==> (i in idx' <==> i in idx);
    } else {
      assert |init| !in idx;
    }
  }

  /** When the last element is selected, it is the last element of the selection. */
  lemma SelectionDropSelected<T>(xs: seq<T>, p: T -> bool, r: seq<T>, idx: seq<nat>)
    requires Selection(xs, p, r, idx) && xs != [] && p(xs[|xs| - 1])
    ensures r != [] && r[|r| - 1] == xs[|xs| - 1]
    ensures Selection(xs[..|xs| - 1], p, r[..|r| - 1], idx[..|idx| - 1])
  {
    var n, m := |xs| - 1, |idx| - 1;
    assert n in idx;
    var k :| 0 <= k < |idx| && idx[k] == n;
    assert idx[m] < |xs|;
    assert forall j :: 0 <= j < m ==> idx[j] < idx[m];
    var init, idx0 := xs[..n], idx[..m];
    forall i | 0 <= i < |init| ensures p(init[i]) <==> i in idx0 {
      assert init[i] == xs[i];
      if i in idx {
        var j :| 0 <= j < |idx| && idx[j] == i;
        assert idx0[j] == i;
      }
    }
  }

  /** When the last element is not selected, the selection is one of the shorter list. */
  lemma SelectionDropUnselected<T>(xs: seq<T>, p: T -> bool, r: seq<T>, idx: seq<nat>)
    requires Selection(xs, p, r, idx) && xs != [] && !p(xs[|xs| - 1])
    ensures Selection(xs[..|xs| - 1], p, r, idx)
  {
    var n := |xs| - 1;
    var init := xs[..n];
    assert n !in idx;
    forall i | 0 <= i < |init| ensures p(init[i]) <==> i in idx {
      assert init[i] == xs[i];
    }
    forall k | 0 <= k < |idx| ensures idx[k] < |init| && r[k] == init[idx[k]] {
      assert idx[k] != n;
    }
  }

  /**
   * `idx` is empty or starts below `n`. A proof device for `SelectionOfEmpty`:
   * it names the term `idx[0]` that the selection's bounds constrain, without
   * an index check of its own in a context where `idx` is already known empty.
   */
  predicate FirstBelow(idx: seq<nat>, n: int) {
    idx == [] || idx[0] < n
  }

  /** The empty list has only the empty selection. */
  lemma SelectionOfEmpty<T>(p: T -> bool, r: seq<T>, idx: seq<nat>)
    requires Selection([], p, r, idx)
    ensures r == []
  {
    assert FirstBelow(idx, 0);
  }

  /** A selection is unique: whatever selects exactly the `p`-elements in order is `Keep(xs, p)`. */
  lemma {:induction false} SelectionIsKeep<T>(xs: seq<T>, p: T -> bool, r: seq<T>, idx: seq<nat>)
    requires Selection(xs, p, r, idx)
    ensures r == Keep(xs, p)
    decreases |xs|, 1
  {
    if xs == [] {
      SelectionOfEmpty(p, r, idx);
    } else if p(xs[|xs| - 1]) {
      SelectedLastIsKeep(xs, p, r, idx);
    } else {
      var init := xs[..|xs| - 1];
      SelectionDropUnselected(xs, p, r, idx);
      SelectionIsKeep(init, p, r, idx);
      assert Keep(xs, p) == Keep(init, p);
    }
  }

  /** The case of `SelectionIsKeep` where the last element is selected. */
  lemma {:induction false} SelectedLastIsKeep<T>(xs: seq<T>, p: T -> bool, r: seq<T>, idx: seq<nat>)
    requires Selection(xs, p, r, idx) && xs != [] && p(xs[|xs| - 1])
    ensures r == Keep(xs, p)
    decreases |xs|, 0
  {
    var n := |xs| - 1;
    var init := xs[..n];
    SelectionDropSelected(xs, p, r, idx);
    var m := |r| - 1;
    SelectionIsKeep(init, p, r[..m], idx[..m]);
    calc {
      r;
      r[..m] + [r[m]];
      Keep(init, p) + [xs[n]];
      Keep(xs, p);
    }
  }

  /**
   * `Keep` is characterised without reference to its own definition: `r` is the
   * order-preserving sub-list of the `p`-elements of `xs` if and only if
   * `r == Keep(xs, p)`.
   */
  lemma KeepIffSelection<T>(xs: seq<T>, p: T -> bool, r: seq<T>)
    ensures IsSelection(xs, p, r) <==> r == Keep(xs, p)
  {
    if IsSelection(xs, p, r) {
      var idx :| Selection(xs, p, r, idx);
      SelectionIsKeep(xs, p, r, idx);
    }
    if r == Keep(xs, p) {
      KeepSelects(xs, p);
    }
  }

  /** `Keep(xs, p)` is the selection of the `p`-elements of `xs`, and holds exactly those. */
  lemma KeepSelection<T>(xs: seq<T>, p: T -> bool)
    ensures IsSelection(xs, p, Keep(xs, p))
    ensures forall x :: x in Keep(xs, p) <==> x in xs && p(x)
  {
    KeepSelects(xs, p);
    forall x ensures x in Keep(xs, p) <==> x in xs && p(x) {
      KeepMembers(xs, p, x);
    }
  }

  /** An element is kept exactly when it occurs in the input and satisfies `p`. */
  lemma {:induction false} KeepMembers<T>(xs: seq<T>, p: T -> bool, x: T)
    ensures x in Keep(xs, p) <==> x in xs && p(x)
    decreases |xs|
  {
    if xs != [] {
      var init := xs[..|xs| - 1];
      KeepMembers(init, p, x);
      assert xs == init + [xs[|xs| - 1]];
    }
  }

  /** A predicate that holds of every element keeps the whole list, in order. */
  lemma {:induction false} KeepAll<T>(xs: seq<T>, p: T -> bool)
    requires forall x :: x in xs ==> p(x)
    ensures Keep(xs, p) == xs
    decreases |xs|
  {
    if xs != [] {
      var n := |xs| - 1;
      var init, last := xs[..n], xs[n];
      assert xs == init + [last];
      forall x | x in init ensures p(x) {
        assert x in xs;
      }
      KeepAll(init, p);
      KeepSnoc(init, last, p);
    }
  }

  /** A predicate that holds of no element keeps nothing. */
  lemma KeepNone<T>(xs: seq<T>, p: T -> bool)
    requires forall x :: x in xs ==> !p(x)
    ensures Keep(xs, p) == []
  {
    assert Keep(xs, p) == [] || Keep(xs, p)[0] in Keep(xs, p);
  }

  /** Filtering a longer list: the kept part of `xs + [x]` extends the kept part of `xs`. */
  lemma KeepSnoc<T>(xs: seq<T>, x: T, p: T -> bool)
    ensures Keep(xs + [x], p) == Keep(xs, p) + (if p(x) then [x] else [])
  {
    assert (xs + [x])[..|xs|] == xs;
  }

  /** Two predicates that agree on the elements of `xs` keep the same elements. */
  lemma {:induction false} KeepCongruent<T>(xs: seq<T>, p: T -> bool, q: T -> bool)
    requires forall x :: x in xs ==> (p(x) <==> q(x))
    ensures Keep(xs, p) == Keep(xs, q)
    decreases |xs|
  {
    if xs != [] {
      var init := xs[..|xs| - 1];
      assert forall x :: x in init ==> x in xs;
      KeepCongruent(init, p, q);
    }
  }

  /** No value occurs twice. */
  predicate Distinct<T(==)>(s: seq<T>) {
    forall i, j :: 0 <= i < j < |s| ==> s[i] != s[j]
  }

  /** A sub-list of a list without repetitions has no repetitions. */
  lemma KeepDistinct<T>(xs: seq<T>, p: T -> bool)
    requires Distinct(xs)
    ensures Distinct(Keep(xs, p))
  {
    KeepSelects(xs, p);
  }
}
