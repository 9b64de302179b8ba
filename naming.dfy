/** Character case rules the entity manager relies on: invariant-culture lowering and camel casing. */
module Naming {
  import opened Wrappers
  import opened Metadata

  /** `Char.ToLowerInvariant`, for the ASCII letters. */
  function LowerChar(c: char): char {
    if 'A' <= c <= 'Z' then (c as int + 32) as char else c
  }

  function FoldCase(s: string): string {
    seq(|s|, i requires 0 <= i < |s| => LowerChar(s[i]))
  }

  /** `a.Equals(b, StringComparison.InvariantCultureIgnoreCase)`. */
  predicate SameIgnoreCase(a: string, b: string) {
    FoldCase(a) == FoldCase(b)
  }

  /** Lowers the first character of a string of two or more characters; leaves every other string as it is. */
  function ToCamelCase(str: NString): (r: NString)
    ensures r.None? <==> str.None?
    ensures str.Some? ==> |r.value| == |str.value|
    ensures str.Some? && |str.value| > 0 ==> r.value[1..] == str.value[1..]
    ensures str.Some? && |str.value| > 1 ==> r.value[0] == LowerChar(str.value[0])
    ensures str.None? || |str.value| <= 1 ==> r == str
  {
    if !IsNullOrEmpty(str) && |str.value| > 1 then Some([LowerChar(str.value[0])] + str.value[1..])
    else str
  }

  /** Camel casing a camel-cased name changes nothing more. */
  lemma ToCamelCaseIdempotent(str: NString)
    ensures ToCamelCase(ToCamelCase(str)) == ToCamelCase(str)
  {
    if str.Some? && |str.value| > 1 {
      var r := ToCamelCase(str).value;
      assert [LowerChar(r[0])] + r[1..] == r;
    }
  }

  /** A camel-cased name still equals the original name when case is ignored. */
  lemma ToCamelCaseSameIgnoreCase(name: string)
    ensures ToCamelCase(Some(name)).Some?
    ensures SameIgnoreCase(ToCamelCase(Some(name)).value, name)
  {
    var r := ToCamelCase(Some(name)).value;
    assert forall i :: 0 <= i < |name| ==> FoldCase(r)[i] == FoldCase(name)[i] by {
      forall i | 0 <= i < |name| ensures FoldCase(r)[i] == FoldCase(name)[i] {
        if i > 0 { assert r[i] == r[1..][i - 1] == name[1..][i - 1] == name[i]; }
      }
    }
  }

  /** The worked examples: "Title" -> "title", "ID" -> "iD", "X" and "" unchanged. */
  lemma ToCamelCaseExamples()
    ensures ToCamelCase(Some("Title")) == Some("title")
    ensures ToCamelCase(Some("ID")) == Some("iD")
    ensures ToCamelCase(Some("X")) == Some("X")
    ensures ToCamelCase(Some("")) == Some("")
    ensures ToCamelCase(None) == None
  {
    assert LowerChar('T') == 't';
    assert "Title"[1..] == "itle";
    assert ['t'] + "itle" == "title";
    assert LowerChar('I') == 'i';
    assert "ID"[1..] == "D";
    assert ['i'] + "D" == "iD";
  }
}
