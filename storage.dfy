/**
 * The page's `localStorage`. The id sets are written as JSON arrays and read
 * back with `new Set(JSON.parse(localStorage.getItem(key)) || [])`; the
 * onboarding flag and the visitor id are plain strings. JSON text itself is
 * not modelled: an array of ids is stored as `Ids`, a plain string as `Text`.
 */
module Storage {
  import opened Wrappers
  import opened Views
  import opened IdSets

  datatype Stored = Ids(ids: seq<Id>) | Text(text: string)

  type Store = map<string, Stored>

  const LikedKey: string := "likedItems"
  const SavedKey: string := "savedItems"
  const FirstImageKey: string := "firstImageSwiped"
  const VisitorKey: string := "prompts_visitor_id"

  /** The four keys are different strings. */
  lemma KeysDistinct()
    ensures LikedKey != SavedKey && LikedKey != FirstImageKey && LikedKey != VisitorKey
    ensures SavedKey != FirstImageKey && SavedKey != VisitorKey && FirstImageKey != VisitorKey
  {
    assert LikedKey[0] == 'l' && SavedKey[0] == 's' && FirstImageKey[0] == 'f' && VisitorKey[0] == 'p';
  }

  /** `!!localStorage.getItem(key)`: a value is stored and it is not the empty string. */
  predicate Truthy(st: Store, key: string) {
    key in st && st[key] != Text("")
  }

  /**
   * The plain spellings of the JSON values `JSON.parse(v) || []` treats as
   * false: `null`, `false`, `0` and the empty string literal.
   */
  predicate FalsyJson(t: string) {
    t == "null" || t == "false" || t == "0" || t == "\"\""
  }

  /** The contents of a JSON string literal written without escapes, or `None` for any other text. */
  function StringLiteral(t: string): (r: Option<string>)
    ensures r.Some? ==> t == "\"" + r.value + "\"" && '"' !in r.value && '\\' !in r.value
  {
    if 2 <= |t| && t[0] == '"' && t[|t| - 1] == '"'
       && forall k :: 1 <= k < |t| - 1 ==> t[k] != '"' && t[k] != '\\' && t[k] >= ' '
    then Some(t[1..|t| - 1])
    else None
  }

  /** The members of `new Set(s)` for a string `s`: one one-character string per character. */
  function CharIds(s: string): (r: seq<Id>)
    ensures |r| == |s|
    ensures forall k :: 0 <= k < |s| ==> r[k] == [s[k]]
  {
    seq(|s|, k requires 0 <= k < |s| => [s[k]])
  }

  /**
   * `new Set(JSON.parse(localStorage.getItem(key)) || [])`. A missing key
   * (`getItem` gives `null`, which parses to `null`) and a stored falsy value
   * give the empty set; a stored array gives its members in first-occurrence
   * order; a stored JSON string gives the set of its characters. Any other
   * text either fails to parse or parses to a value `new Set` cannot iterate
   * (a non-zero number, `true`, an object), and the page script stops there
   * (`None`).
   */
  function LoadIdSet(st: Store, key: string): (r: Option<seq<Id>>)
    ensures key !in st ==> r == Some([])
    ensures key in st && st[key].Ids? ==> r.Some? && forall x :: x in r.value <==> x in st[key].ids
    ensures r.Some? ==> Distinct(r.value)
  {
    if key !in st then Some([])
    else match st[key]
      case Ids(xs) => Some(FromList(xs))
      case Text(t) =>
        if FalsyJson(t) then Some([])
        else match StringLiteral(t)
          case Some(chars) => Some(FromList(CharIds(chars)))
          case None => None
  }

  /**
   * A stored text reads as a set exactly when it is a falsy value or a string
   * literal; a falsy value reads as the empty set, and a string literal as the
   * one-character strings of its contents.
   */
  lemma LoadStoredText(st: Store, key: string, t: string)
    requires key in st && st[key] == Text(t)
    ensures LoadIdSet(st, key).Some? <==> FalsyJson(t) || StringLiteral(t).Some?
    ensures FalsyJson(t) ==> LoadIdSet(st, key) == Some([])
    ensures !FalsyJson(t) && StringLiteral(t).Some? ==>
      forall x :: x in LoadIdSet(st, key).value <==> |x| == 1 && x[0] in StringLiteral(t).value
  {
    if !FalsyJson(t) && StringLiteral(t).Some? {
      var chars := StringLiteral(t).value;
      forall x ensures x in CharIds(chars) <==> |x| == 1 && x[0] in chars {
        if |x| == 1 && x[0] in chars {
          var k :| 0 <= k < |chars| && chars[k] == x[0];
          assert CharIds(chars)[k] == x;
        }
      }
    }
  }

  /** A stored `null` reads as the empty set, and so does a stored `0`; a stored `true` stops the script. */
  lemma StoredFalsyIsEmpty(key: string)
    ensures LoadIdSet(map[key := Text("null")], key) == Some([])
    ensures LoadIdSet(map[key := Text("0")], key) == Some([])
    ensures LoadIdSet(map[key := Text("true")], key) == None
  {
    assert StringLiteral("true") == None by {
      assert "true"[0] != '"';
    }
  }

  /** `localStorage.setItem(key, JSON.stringify([...set]))`. */
  function WriteIdSet(st: Store, key: string, s: seq<Id>): Store {
    st[key := Ids(s)]
  }

  /**
   * Write-through persistence: after a set is written, reading it back (at the
   * next page load) yields exactly that set, in the same order.
   */
  lemma ReloadAfterWrite(st: Store, key: string, s: seq<Id>)
    requires Distinct(s)
    ensures LoadIdSet(WriteIdSet(st, key, s), key) == Some(s)
  {
    FromListDistinct(s);
  }

  /** Writing one key leaves what is read under any other key unchanged. */
  lemma WriteLeavesOthers(st: Store, key: string, s: seq<Id>, other: string)
    requires other != key
    ensures LoadIdSet(WriteIdSet(st, key, s), other) == LoadIdSet(st, other)
    ensures Truthy(WriteIdSet(st, key, s), other) == Truthy(st, other)
  {
  }
}
