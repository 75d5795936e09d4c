/**
 * `generateUUID`: fills the template `xxxxxxxx-xxxx-4xxx-yxxx-xxxxxxxxxxxx`,
 * replacing each `x` by a random hex digit and the `y` by a random digit with
 * its two high bits forced to `10`, which gives the layout of a random
 * (version 4) UUID in section 4.4 of RFC 4122. The random draws
 * (`Math.random() * 16 | 0`) are the parameter `rs`, one per placeholder.
 */
module Uuid {

  /** One draw of `Math.random() * 16 | 0`. */
  type Nibble = r: int | 0 <= r < 16

  const Template: string := "xxxxxxxx-xxxx-4xxx-yxxx-xxxxxxxxxxxx"

  const HexDigits: string := "0123456789abcdef"

  /** `v.toString(16)` for a single digit. */
  function Hex(v: Nibble): char {
    HexDigits[v]
  }

  /** `r & 0x3 | 0x8`: the variant digit. */
  function Variant(r: Nibble): (v: Nibble)
    ensures 8 <= v <= 11
  {
    ((r as bv8 & 0x3) | 0x8) as int
  }

  /** The number of characters of `t` that the template replacement substitutes. */
  function Placeholders(t: string): nat {
    if t == [] then 0
    else (if t[0] == 'x' || t[0] == 'y' then 1 else 0) + Placeholders(t[1..])
  }

  /** `t.replace(/[xy]/g, ...)` with the draws `rs`, taken left to right. */
  function Fill(t: string, rs: seq<Nibble>): string
    requires |rs| == Placeholders(t)
  {
    if t == [] then []
    else if t[0] == 'x' then [Hex(rs[0])] + Fill(t[1..], rs[1..])
    else if t[0] == 'y' then [Hex(Variant(rs[0]))] + Fill(t[1..], rs[1..])
    else [t[0]] + Fill(t[1..], rs)
  }

  lemma {:induction false} PlaceholdersAppend(a: string, b: string)
    ensures Placeholders(a + b) == Placeholders(a) + Placeholders(b)
    decreases |a|
  {
    if a == [] {
      assert a + b == b;
    } else {
      assert (a + b)[0] == a[0];
      assert (a + b)[1..] == a[1..] + b;
      PlaceholdersAppend(a[1..], b);
    }
  }

  /** The draws one call consumes: 30 `x` and one `y`. */
  lemma TemplatePlaceholders()
    ensures Placeholders(Template) == 31
  {
    var a, b, c, d, e := "xxxxxxxx", "-xxxx", "-4xxx", "-yxxx", "-xxxxxxxxxxxx";
    assert Template == a + b + c + d + e;
    GroupPlaceholders();
    PlaceholdersAppend(a, b);
    PlaceholdersAppend(a + b, c);
    PlaceholdersAppend(a + b + c, d);
    PlaceholdersAppend(a + b + c + d, e);
  }

  lemma GroupPlaceholders()
    ensures Placeholders("xxxxxxxx") == 8 && Placeholders("-xxxx") == 4
    ensures Placeholders("-4xxx") == 3 && Placeholders("-yxxx") == 4
    ensures Placeholders("-xxxxxxxxxxxx") == 12
  {
  }

  /** `generateUUID()` */
  function Generate(rs: seq<Nibble>): string
    requires |rs| == 31
  {
    TemplatePlaceholders();
    Fill(Template, rs)
  }

  /** Whether `c` could stand where the template has `tc`. */
  predicate Fits(tc: char, c: char) {
    if tc == 'x' then c in HexDigits
    else if tc == 'y' then c in "89ab"
    else c == tc
  }

  /** `s` is one of the strings the template describes. */
  predicate Matches(t: string, s: string) {
    |s| == |t| && forall i :: 0 <= i < |t| ==> Fits(t[i], s[i])
  }

  /**
   * The RFC 4122 random-UUID text layout as the generator lays it out: 36
   * characters, dashes at 8, 13, 18 and 23, the version digit `4` at 14, a
   * variant digit in `8`..`b` at 19, and a lower-case hex digit everywhere else.
   */
  predicate UuidShape(s: string) {
    |s| == 36 && forall i :: 0 <= i < 36 ==> FitsAt(i, s[i])
  }

  predicate FitsAt(i: int, c: char) {
    if i == 8 || i == 13 || i == 18 || i == 23 then c == '-'
    else if i == 14 then c == '4'
    else if i == 19 then c in "89ab"
    else c in HexDigits
  }

  /** Whatever the draws, the replacement yields a string the template describes. */
  lemma {:induction false} FillMatches(t: string, rs: seq<Nibble>)
    requires |rs| == Placeholders(t)
    ensures Matches(t, Fill(t, rs))
    decreases |t|
  {
    if t != [] {
      var rs' := if t[0] == 'x' || t[0] == 'y' then rs[1..] else rs;
      FillMatches(t[1..], rs');
      var f := Fill(t, rs);
      assert f == [f[0]] + Fill(t[1..], rs');
      assert Fits(t[0], f[0]);
      forall i | 1 <= i < |t| ensures Fits(t[i], f[i]) {
        assert t[i] == t[1..][i - 1];
      }
    }
  }

  /** The digit value of a hex character, the inverse of `Hex`. */
  function HexValue(c: char): (v: Nibble)
    requires c in HexDigits
    ensures Hex(v) == c
  {
    if '0' <= c <= '9' then c as int - '0' as int else c as int - 'a' as int + 10
  }

  /** The draws that would produce `s`: the digit values at the placeholder positions. */
  function Draws(t: string, s: string): (rs: seq<Nibble>)
    requires Matches(t, s)
    ensures |rs| == Placeholders(t)
    decreases |t|
  {
    if t == [] then []
    else
      assert Matches(t[1..], s[1..]) by {
        forall i | 0 <= i < |t| - 1 ensures Fits(t[1..][i], s[1..][i]) {
          assert Fits(t[i + 1], s[i + 1]);
        }
      }
      if t[0] == 'x' || t[0] == 'y' then [HexValue(s[0])] + Draws(t[1..], s[1..])
      else Draws(t[1..], s[1..])
  }

  /** Every string the template describes is produced by some draws. */
  lemma {:induction false} FillDraws(t: string, s: string)
    requires Matches(t, s)
    ensures Fill(t, Draws(t, s)) == s
    decreases |t|
  {
    if t != [] {
      assert Fits(t[0], s[0]);
      FillDraws(t[1..], s[1..]);
      assert s == [s[0]] + s[1..];
      if t[0] == 'y' {
        VariantDigit(s[0]);
      }
    }
  }

  /** A variant digit is its own variant: forcing the high bits to `10` leaves `8`..`b` unchanged. */
  lemma VariantDigit(c: char)
    requires c in "89ab"
    ensures c in HexDigits && Variant(HexValue(c)) == HexValue(c)
  {
    if c == '8' {
      assert Variant(8) == 8;
    } else if c == '9' {
      assert Variant(9) == 9;
    } else if c == 'a' {
      assert Variant(10) == 10;
    } else {
      assert Variant(11) == 11;
    }
  }

  /** Under the fixed template, "described by the template" is the UUID layout. */
  lemma TemplateShape(s: string)
    ensures Matches(Template, s) <==> UuidShape(s)
  {
    assert |Template| == 36;
    if |s| == 36 {
      forall i | 0 <= i < 36 ensures Fits(Template[i], s[i]) <==> FitsAt(i, s[i]) {
        TemplateAt(i);
      }
    }
  }

  /** The template, character by character. */
  lemma TemplateAt(i: int)
    requires 0 <= i < 36
    ensures Template[i] == (if i == 8 || i == 13 || i == 18 || i == 23 then '-'
                            else if i == 14 then '4' else if i == 19 then 'y' else 'x')
  {
    assert Template == "xxxxxxxx" + "-" + "xxxx" + "-" + "4xxx" + "-" + "yxxx" + "-" + "xxxxxxxxxxxx";
  }

  /** Every generated identifier has the random-UUID layout. */
  lemma GenerateShape(rs: seq<Nibble>)
    requires |rs| == 31
    ensures UuidShape(Generate(rs))
  {
    TemplatePlaceholders();
    FillMatches(Template, rs);
    TemplateShape(Generate(rs));
  }

  /** Every string with the random-UUID layout is a possible identifier. */
  lemma GenerateOnto(s: string)
    requires UuidShape(s)
    ensures exists rs :: |rs| == 31 && Generate(rs) == s
  {
    TemplateShape(s);
    TemplatePlaceholders();
    FillDraws(Template, s);
    assert Generate(Draws(Template, s)) == s;
  }
}
