/**
 * `shuffleArray`: the in-place Fisher–Yates shuffle. The loop runs `i` from
 * `n - 1` down to `1` and swaps `a[i]` with `a[j]` for a random `0 <= j <= i`.
 * The random draws are modelled as the sequence `js` of the chosen `j`s.
 */
module Shuffle {

  /** `[s[i], s[j]] = [s[j], s[i]]` on a sequence. */
  function Swap<T>(s: seq<T>, i: nat, j: nat): (r: seq<T>)
    requires i < |s| && j < |s|
    ensures |r| == |s| && r[i] == s[j] && r[j] == s[i]
    ensures forall k :: 0 <= k < |s| && k != i && k != j ==> r[k] == s[k]
  {
    s[i := s[j]][j := s[i]]
  }

  /** `js` are legal draws for the swaps at `top`, `top - 1`, ...: the `k`-th is at most `top - k`. */
  predicate Draws(top: nat, js: seq<nat>) {
    |js| <= top && forall k :: 0 <= k < |js| ==> js[k] <= top - k
  }

  /** The sequence after the swaps at positions `top`, `top - 1`, ... with partners `js`. */
  function Apply<T>(s: seq<T>, top: nat, js: seq<nat>): seq<T>
    requires top < |s| && Draws(top, js)
    decreases js
  {
    if js == [] then s
    else Apply(Swap(s, top, js[0]), top - 1, js[1..])
  }

  /** `js` are the draws of one complete run of the loop on a sequence of length `n`. */
  predicate FullDraws(n: nat, js: seq<nat>) {
    if n == 0 then js == [] else Draws(n - 1, js) && |js| == n - 1
  }

  /** The shuffle of `s` under the draws `js`. */
  function Shuffled<T>(s: seq<T>, js: seq<nat>): seq<T>
    requires FullDraws(|s|, js)
  {
    if s == [] then s else Apply(s, |s| - 1, js)
  }

  lemma SwapPermutes<T>(s: seq<T>, i: nat, j: nat)
    requires i < |s| && j < |s|
    ensures multiset(Swap(s, i, j)) == multiset(s)
  {
    if i != j {
      var u := s[i := s[j]];
      assert multiset(u) == multiset(s) - multiset{s[i]} + multiset{s[j]};
      assert Swap(s, i, j) == u[j := s[i]];
      assert u[j] == s[j];
      assert multiset(u[j := s[i]]) == multiset(u) - multiset{s[j]} + multiset{s[i]};
    }
  }

  /** Every run of the swaps is a permutation of its input. */
  lemma {:induction false} ApplyPermutes<T>(s: seq<T>, top: nat, js: seq<nat>)
    requires top < |s| && Draws(top, js)
    ensures |Apply(s, top, js)| == |s|
    ensures multiset(Apply(s, top, js)) == multiset(s)
    decreases js
  {
    if js != [] {
      SwapPermutes(s, top, js[0]);
      ApplyPermutes(Swap(s, top, js[0]), top - 1, js[1..]);
    }
  }

  /** Dropping the first draw leaves legal draws for the next lower position. */
  lemma DrawsTail(top: nat, js: seq<nat>)
    requires Draws(top, js) && js != []
    ensures top >= 1 && js[0] <= top && Draws(top - 1, js[1..])
  {
    assert forall k :: 0 <= k < |js| - 1 ==> js[1..][k] == js[k + 1];
  }

  /** Legal draws stay legal without their last element, which is at most its position's bound. */
  lemma DrawsInit(top: nat, js: seq<nat>, j: nat)
    requires Draws(top, js + [j])
    ensures Draws(top, js) && j <= top - |js|
  {
    assert (js + [j])[|js|] == j;
    assert forall k :: 0 <= k < |js| ==> (js + [j])[k] == js[k];
  }

  /** One more draw is one more swap, at the next lower position. */
  lemma {:induction false} ApplySnoc<T>(s: seq<T>, top: nat, js: seq<nat>, j: nat)
    requires top < |s| && Draws(top, js + [j])
    ensures Draws(top, js) && j <= top - |js|
    ensures |Apply(s, top, js)| == |s|
    ensures Apply(s, top, js + [j]) == Swap(Apply(s, top, js), top - |js|, j)
    decreases js
  {
    DrawsInit(top, js, j);
    ApplyPermutes(s, top, js);
    if js == [] {
      assert js + [j] == [j];
      assert Apply(s, top, [j]) == Apply(Swap(s, top, j), top - 1, []);
    } else {
      var t := Swap(s, top, js[0]);
      var tail := js[1..];
      assert (js + [j])[0] == js[0];
      assert (js + [j])[1..] == tail + [j];
      DrawsTail(top, js + [j]);
      assert Apply(s, top, js + [j]) == Apply(t, top - 1, tail + [j]);
      ApplySnoc(t, top - 1, tail, j);
      assert Apply(s, top, js) == Apply(t, top - 1, tail);
    }
  }

  /** Swapping inside a prefix leaves what follows it alone. */
  lemma SwapAppend<T>(p: seq<T>, q: seq<T>, i: nat, j: nat)
    requires i < |p| && j < |p|
    ensures Swap(p + q, i, j) == Swap(p, i, j) + q
  {
  }

  /** Swaps inside a prefix leave what follows it alone. */
  lemma {:induction false} ApplyAppend<T>(p: seq<T>, q: seq<T>, top: nat, js: seq<nat>)
    requires top < |p| && Draws(top, js)
    ensures Apply(p + q, top, js) == Apply(p, top, js) + q
    decreases js
  {
    if js != [] {
      DrawsTail(top, js);
      SwapAppend(p, q, top, js[0]);
      ApplyAppend(Swap(p, top, js[0]), q, top - 1, js[1..]);
    }
  }

  /** The swaps at positions at most `top` leave everything above `top` alone. */
  lemma ApplyFrame<T>(s: seq<T>, top: nat, js: seq<nat>)
    requires top < |s| && Draws(top, js)
    ensures Apply(s, top, js) == Apply(s[..top + 1], top, js) + s[top + 1..]
  {
    assert s == s[..top + 1] + s[top + 1..];
    ApplyAppend(s[..top + 1], s[top + 1..], top, js);
  }

  /** The shuffle of a sequence is a permutation of it. */
  lemma ShuffledPermutes<T>(s: seq<T>, js: seq<nat>)
    requires FullDraws(|s|, js)
    ensures multiset(Shuffled(s, js)) == multiset(s)
  {
    if s != [] {
      ApplyPermutes(s, |s| - 1, js);
    }
  }

  /** The first swap puts `s[j]` last; the rest of the run shuffles what is left before it. */
  lemma ShuffledFirstSwap<T>(s: seq<T>, j: nat, rest: seq<nat>)
    requires 2 <= |s| && j < |s|
    requires FullDraws(|s| - 1, rest)
    ensures FullDraws(|s|, [j] + rest)
    ensures Shuffled(s, [j] + rest)
         == Shuffled(Swap(s, |s| - 1, j)[..|s| - 1], rest) + [s[j]]
  {
    var n := |s| - 1;
    var js := [j] + rest;
    assert js[1..] == rest;
    assert forall k :: 1 <= k < |js| ==> js[k] == rest[k - 1];
    var t := Swap(s, n, j);
    assert Apply(s, n, js) == Apply(t, n - 1, rest);
    ApplyFrame(t, n - 1, rest);
    assert t[..n - 1 + 1] == t[..n];
    assert t[n..] == [s[j]];
  }

  /** Two permutations of each other that end alike are permutations of each other without that end. */
  lemma DropSameLast<T>(t: seq<T>, p: seq<T>)
    requires |t| == |p| > 0 && t[|t| - 1] == p[|p| - 1]
    requires multiset(t) == multiset(p)
    ensures multiset(t[..|t| - 1]) == multiset(p[..|p| - 1])
  {
    var n := |t| - 1;
    assert t == t[..n] + [t[n]];
    assert p == p[..n] + [p[n]];
    assert multiset(t) == multiset(t[..n]) + multiset{t[n]};
    assert multiset(p) == multiset(p[..n]) + multiset{t[n]};
    assert multiset(t[..n]) == multiset(t) - multiset{t[n]};
    assert multiset(p[..n]) == multiset(p) - multiset{t[n]};
  }

  /** A list of length at most one is its only permutation, and the empty run produces it. */
  lemma OntoSmall<T>(s: seq<T>, p: seq<T>)
    requires |s| <= 1 && multiset(p) == multiset(s)
    ensures FullDraws(|s|, []) && Shuffled(s, []) == p
  {
    assert |p| == |multiset(p)| == |s|;
    if |s| == 1 {
      assert p[0] in multiset(s);
      assert p == s;
    }
  }

  /** Some position of `s` holds the element that ends its permutation `p`. */
  lemma LastSource<T>(s: seq<T>, p: seq<T>) returns (j: nat)
    requires |p| > 0 && multiset(p) == multiset(s)
    ensures j < |s| && s[j] == p[|p| - 1]
  {
    assert p[|p| - 1] in multiset(s);
    j :| 0 <= j < |s| && s[j] == p[|p| - 1];
  }

  /** Draws under which the shuffle of `s` is its permutation `p`. */
  lemma {:induction false} DrawsFor<T>(s: seq<T>, p: seq<T>) returns (js: seq<nat>)
    requires multiset(p) == multiset(s)
    ensures FullDraws(|s|, js) && Shuffled(s, js) == p
    decreases |s|
  {
    assert |p| == |multiset(p)| == |s|;
    if |s| <= 1 {
      OntoSmall(s, p);
      js := [];
    } else {
      var n := |s| - 1;
      var j := LastSource(s, p);
      var t := Swap(s, n, j);
      SwapPermutes(s, n, j);
      DropSameLast(t, p);
      var rest := DrawsFor(t[..n], p[..n]);
      ShuffledFirstSwap(s, j, rest);
      assert p == p[..n] + [p[n]];
      js := [j] + rest;
    }
  }

  /** Every permutation of `s` is the outcome of some run: the shuffle can produce any order. */
  lemma ShuffleOnto<T>(s: seq<T>, p: seq<T>)
    requires multiset(p) == multiset(s)
    ensures exists js :: FullDraws(|s|, js) && Shuffled(s, js) == p
  {
    var js := DrawsFor(s, p);
  }

  /**
   * `shuffleArray(array)`: shuffles `a` in place and returns that same array.
   * Each `j` is chosen freely in `0..i`, as `Math.floor(Math.random() * (i + 1))` is.
   */
  method ShuffleArray<T>(a: array<T>) returns (r: array<T>, ghost js: seq<nat>)
    modifies a
    ensures r == a
    ensures FullDraws(a.Length, js) && a[..] == Shuffled(old(a[..]), js)
    ensures multiset(a[..]) == multiset(old(a[..]))
  {
    ghost var s := a[..];
    js := [];
    var i := a.Length - 1;
    while i > 0
      invariant a.Length == 0 ==> i == -1 && js == [] && a[..] == s
      invariant a.Length > 0 ==> 0 <= i == a.Length - 1 - |js| && Draws(a.Length - 1, js)
      invariant a.Length > 0 ==> a[..] == Apply(s, a.Length - 1, js)
    {
      var j :| 0 <= j <= i;
      ApplySnoc(s, a.Length - 1, js, j);
      a[i], a[j] := a[j], a[i];
      js := js + [j];
      i := i - 1;
    }
    ShuffledPermutes(s, js);
    r := a;
  }
}
