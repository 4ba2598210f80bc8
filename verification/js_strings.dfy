/** The whitespace handling of JavaScript strings: `String.prototype.trim`
    and the leading-whitespace skip of `parseFloat`. Both strip the same
    character class, the ECMAScript WhiteSpace and LineTerminator code points. */
module JsStrings {

  /** TAB, LF, VT, FF, CR, SPACE, NBSP, the Unicode space separators (Zs),
      LINE SEPARATOR, PARAGRAPH SEPARATOR and the byte-order mark. */
  predicate IsWhitespace(c: char) {
    var n := c as int;
    (0x09 <= n <= 0x0D) || n == 0x20 || n == 0xA0 || n == 0x1680 ||
    (0x2000 <= n <= 0x200A) || n == 0x2028 || n == 0x2029 || n == 0x202F ||
    n == 0x205F || n == 0x3000 || n == 0xFEFF
  }

  predicate AllWhitespace(s: string) {
    forall i :: 0 <= i < |s| ==> IsWhitespace(s[i])
  }

  /** The first position at or after `i` that does not hold whitespace. */
  function SkipWhitespace(s: string, i: nat): (j: nat)
    requires i <= |s|
    ensures i <= j <= |s|
    ensures forall k :: i <= k < j ==> IsWhitespace(s[k])
    ensures j < |s| ==> !IsWhitespace(s[j])
    decreases |s| - i
  {
    if i < |s| && IsWhitespace(s[i]) then SkipWhitespace(s, i + 1) else i
  }

  /** The end of `s[lo..j]` once its trailing whitespace is dropped. */
  function SkipWhitespaceBack(s: string, lo: nat, j: nat): (k: nat)
    requires lo <= j <= |s|
    ensures lo <= k <= j
    ensures forall m :: k <= m < j ==> IsWhitespace(s[m])
    ensures k > lo ==> !IsWhitespace(s[k - 1])
  {
    if j > lo && IsWhitespace(s[j - 1]) then SkipWhitespaceBack(s, lo, j - 1) else j
  }

  /** `s` with its leading whitespace removed. */
  function TrimStart(s: string): (r: string)
    ensures |r| <= |s| && r == s[|s| - |r|..]
    ensures forall k :: 0 <= k < |s| - |r| ==> IsWhitespace(s[k])
    ensures |r| > 0 ==> !IsWhitespace(r[0])
  {
    s[SkipWhitespace(s, 0)..]
  }

  /** `String.prototype.trim`: `r` starts where `TrimStart` does (so only
      whitespace precedes it), only whitespace follows it, and it neither
      starts nor ends with whitespace. */
  function Trim(s: string): (r: string)
    ensures var i := |s| - |TrimStart(s)|;
            i + |r| <= |s| && r == s[i..i + |r|] &&
            (forall k :: i + |r| <= k < |s| ==> IsWhitespace(s[k]))
    ensures |r| > 0 ==> !IsWhitespace(r[0]) && !IsWhitespace(r[|r| - 1])
  {
    var i := SkipWhitespace(s, 0);
    var j := SkipWhitespaceBack(s, i, |s|);
    assert j > i ==> !IsWhitespace(s[i]);
    s[i..j]
  }

  /** A string that neither starts nor ends with whitespace is its own trim. */
  lemma TrimOfBare(s: string)
    requires |s| > 0 && !IsWhitespace(s[0]) && !IsWhitespace(s[|s| - 1])
    ensures TrimStart(s) == s && Trim(s) == s
  {
    assert SkipWhitespace(s, 0) == 0;
    assert SkipWhitespaceBack(s, 0, |s|) == |s|;
  }

  /** A string trims to the empty string exactly when it is blank; this is
      the falsy case of `x.trim()` in a JavaScript condition. */
  lemma TrimEmptyIffBlank(s: string)
    ensures Trim(s) == "" <==> AllWhitespace(s)
  {
    var r := Trim(s);
    var i := |s| - |TrimStart(s)|;
    if r != "" {
      assert r[0] == s[i];
    }
  }

  /** What `trim` keeps is a prefix of what `parseFloat` scans, and the rest
      of that scan is whitespace. */
  lemma TrimStartExtendsTrim(s: string)
    ensures |Trim(s)| <= |TrimStart(s)|
    ensures TrimStart(s)[..|Trim(s)|] == Trim(s)
    ensures AllWhitespace(TrimStart(s)[|Trim(s)|..])
  {
    var i := SkipWhitespace(s, 0);
    var j := SkipWhitespaceBack(s, i, |s|);
    var t := TrimStart(s);
    assert t == s[i..];
    assert Trim(s) == s[i..j];
    var tail := t[j - i..];
    forall k | 0 <= k < |tail|
      ensures IsWhitespace(tail[k])
    {
      assert tail[k] == s[j + k];
    }
  }
}
