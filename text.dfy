/**
 * The string operations the search filters rely on: `toLowerCase`, `trim`
 * and `includes` of JavaScript strings.
 */
module Text {

  /** `toLowerCase` on one character; only the ASCII letters are folded. */
  function LowerChar(c: char): (r: char)
    ensures !('A' <= r <= 'Z')
    ensures c != r ==> 'A' <= c <= 'Z'
  {
    if 'A' <= c <= 'Z' then (c as int + 32) as char else c
  }

  /** `s.toLowerCase()` */
  function Lower(s: string): (r: string)
    ensures |r| == |s|
    ensures forall i :: 0 <= i < |s| ==> r[i] == LowerChar(s[i])
  {
    seq(|s|, i requires 0 <= i < |s| => LowerChar(s[i]))
  }

  /** The characters `String.prototype.trim` removes: white space and line terminators. */
  predicate IsSpace(c: char) {
    c == ' ' || c == '\t' || c == '\n' || c == '\r' || c == '\U{000B}' || c == '\U{000C}'
    || c == '\U{00A0}' || c == '\U{1680}' || ('\U{2000}' <= c <= '\U{200A}')
    || c == '\U{2028}' || c == '\U{2029}' || c == '\U{202F}' || c == '\U{205F}'
    || c == '\U{3000}' || c == '\U{FEFF}'
  }

  predicate AllSpace(s: string) {
    forall i :: 0 <= i < |s| ==> IsSpace(s[i])
  }

  /** The number of white-space characters `s` starts with. */
  function Leading(s: string): (n: nat)
    ensures n <= |s|
    ensures forall k :: 0 <= k < n ==> IsSpace(s[k])
    ensures n < |s| ==> !IsSpace(s[n])
  {
    if s != [] && IsSpace(s[0]) then
      var n := 1 + Leading(s[1..]);
      assert forall k :: 1 <= k <= n && k < |s| ==> s[k] == s[1..][k - 1];
      n
    else 0
  }

  /** The number of white-space characters `s` ends with. */
  function Trailing(s: string): (n: nat)
    ensures n <= |s|
    ensures forall k :: |s| - n <= k < |s| ==> IsSpace(s[k])
    ensures n < |s| ==> !IsSpace(s[|s| - n - 1])
  {
    if s != [] && IsSpace(s[|s| - 1]) then
      var n := 1 + Trailing(s[..|s| - 1]);
      assert forall k :: |s| - n - 1 <= k < |s| - 1 && 0 <= k ==> s[k] == s[..|s| - 1][k];
      n
    else 0
  }

  /**
   * `s.trim()`: the slice of `s` left after cutting the leading and the
   * trailing white space. It starts and ends with a character that is not
   * white space, and only white space is cut on either side of it.
   */
  function Trim(s: string): (r: string)
    ensures r == [] || (!IsSpace(r[0]) && !IsSpace(r[|r| - 1]))
    ensures Trimming(s, r, Leading(s))
  {
    var i := Leading(s);
    var j := Trailing(s[i..]);
    MarginsCut(s, i, j);
    s[i..|s| - j]
  }

  /** Cutting the two margins leaves non-white-space ends and cuts only white space. */
  lemma MarginsCut(s: string, i: nat, j: nat)
    requires i == Leading(s) && j == Trailing(s[i..])
    ensures var r := s[i..|s| - j]; r == [] || (!IsSpace(r[0]) && !IsSpace(r[|r| - 1]))
    ensures Trimming(s, s[i..|s| - j], i)
  {
    var t := s[i..];
    var r := s[i..|s| - j];
    if r != [] {
      assert r[0] == s[i];
      assert r[|r| - 1] == t[|t| - j - 1];
    }
    forall k | |s| - j <= k < |s| ensures IsSpace(s[k]) {
      assert s[k] == t[k - i];
    }
  }

  /** `r` is `s` with the white space before `i` and the white space after `r` removed. */
  predicate Trimming(s: string, r: string, i: int) {
    && 0 <= i <= i + |r| <= |s|
    && s[i..i + |r|] == r
    && (forall k :: 0 <= k < i ==> IsSpace(s[k]))
    && (forall k :: i + |r| <= k < |s| ==> IsSpace(s[k]))
  }

  /** `t` occurs in `s` at position `i`. */
  predicate OccursAt(s: string, t: string, i: int) {
    0 <= i && i + |t| <= |s| && s[i..i + |t|] == t
  }

  /** `s.includes(t)`, by scanning the start positions of `s` left to right. */
  predicate Contains(s: string, t: string)
    decreases |s|
  {
    (|t| <= |s| && s[..|t|] == t) || (s != [] && Contains(s[1..], t))
  }

  /** `includes` holds exactly when `t` occurs at some position of `s`. */
  lemma {:induction false} ContainsIff(s: string, t: string)
    ensures Contains(s, t) <==> exists i :: OccursAt(s, t, i)
    decreases |s|
  {
    if |t| <= |s| && s[..|t|] == t {
      assert OccursAt(s, t, 0);
    } else if s == [] {
      assert forall i :: !OccursAt(s, t, i);
    } else {
      ContainsIff(s[1..], t);
      if Contains(s[1..], t) {
        var i :| OccursAt(s[1..], t, i);
        assert s[1..][i..i + |t|] == s[i + 1..i + 1 + |t|];
        assert OccursAt(s, t, i + 1);
      } else {
        forall i | 1 <= i && i + |t| <= |s| ensures !OccursAt(s, t, i) {
          assert s[1..][i - 1..i - 1 + |t|] == s[i..i + |t|];
          assert !OccursAt(s[1..], t, i - 1);
        }
      }
    }
  }

  /** Every string includes the empty string. */
  lemma ContainsEmpty(s: string)
    ensures Contains(s, [])
  {
    assert s[..0] == [];
  }

  /** The empty string includes only the empty string. */
  lemma ContainsInEmpty(t: string)
    ensures Contains([], t) <==> t == []
  {
  }

  /** Trimming twice is trimming once. */
  lemma TrimIdempotent(s: string)
    ensures Trim(Trim(s)) == Trim(s)
  {
    var r := Trim(s);
    assert Leading(r) == 0;
    assert r[0..] == r;
    assert Trailing(r) == 0;
  }

  /** A string of white space alone trims to the empty string. */
  lemma TrimAllSpace(s: string)
    requires AllSpace(s)
    ensures Trim(s) == []
  {
    assert Leading(s) == |s|;
  }

  /** Lowering changes no white space into something else, and nothing else into white space. */
  lemma LowerKeepsSpace(c: char)
    ensures IsSpace(LowerChar(c)) == IsSpace(c)
  {
  }

  /** Lower-casing a string of white space leaves a string of white space. */
  lemma LowerAllSpace(s: string)
    requires AllSpace(s)
    ensures AllSpace(Lower(s))
  {
    forall k | 0 <= k < |s| ensures IsSpace(Lower(s)[k]) {
      LowerKeepsSpace(s[k]);
    }
  }

  /** `c` and `d` are the same character up to ASCII case: equal, or an upper-case letter and its lower-case partner. */
  predicate CaseVariants(c: char, d: char) {
    c == d
    || ('A' <= c <= 'Z' && d as int == c as int + ('a' as int - 'A' as int))
    || ('A' <= d <= 'Z' && c as int == d as int + ('a' as int - 'A' as int))
  }

  /** Two characters lower to the same character exactly when they differ at most in ASCII case. */
  lemma LowerCharIff(c: char, d: char)
    ensures LowerChar(c) == LowerChar(d) <==> CaseVariants(c, d)
  {
    if 'A' <= c <= 'Z' && 'A' <= d <= 'Z' {
      assert LowerChar(c) as int == c as int + 32 && LowerChar(d) as int == d as int + 32;
    } else if 'A' <= c <= 'Z' {
      assert LowerChar(c) as int == c as int + 32 && LowerChar(d) == d;
    } else if 'A' <= d <= 'Z' {
      assert LowerChar(d) as int == d as int + 32 && LowerChar(c) == c;
    }
  }

  /** The filters compare case-insensitively: two strings lower alike exactly when they agree up to ASCII case. */
  lemma LowerEqualIff(a: string, b: string)
    ensures Lower(a) == Lower(b) <==> |a| == |b| && forall k :: 0 <= k < |a| ==> CaseVariants(a[k], b[k])
  {
    if |a| == |b| {
      forall k | 0 <= k < |a| ensures Lower(a)[k] == Lower(b)[k] <==> CaseVariants(a[k], b[k]) {
        LowerCharIff(a[k], b[k]);
      }
      if forall k :: 0 <= k < |a| ==> CaseVariants(a[k], b[k]) {
        assert forall k :: 0 <= k < |a| ==> Lower(a)[k] == Lower(b)[k];
      }
    }
  }

  /** Lower-casing twice is lower-casing once. */
  lemma LowerIdempotent(s: string)
    ensures Lower(Lower(s)) == Lower(s)
  {
    forall k | 0 <= k < |s| ensures Lower(Lower(s))[k] == Lower(s)[k] {
      LowerCharIff(Lower(s)[k], s[k]);
    }
  }
}
