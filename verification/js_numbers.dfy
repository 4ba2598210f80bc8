/** String-to-number conversion as JavaScript performs it, over exact reals:
    `Number(s)` (the StringToNumber abstract operation of ECMAScript) and
    the global `parseFloat(s)`. `None` stands for NaN. */
module JsNumbers {
  import opened Results
  import opened JsStrings
  import opened Seqs

  predicate IsDigit(c: char) {
    '0' <= c <= '9'
  }

  predicate IsHexDigit(c: char) {
    IsDigit(c) || 'a' <= c <= 'f' || 'A' <= c <= 'F'
  }

  function HexDigitValue(c: char): (d: nat)
    requires IsHexDigit(c)
    ensures d < 16
    ensures IsDigit(c) <==> d < 10
  {
    if IsDigit(c) then c as int - '0' as int
    else if 'a' <= c <= 'f' then c as int - 'a' as int + 10
    else c as int - 'A' as int + 10
  }

  /** Every character of `s` is a digit of the given base (2, 8, 10 or 16). */
  predicate AllDigitsIn(s: string, base: nat) {
    forall i :: 0 <= i < |s| ==> IsHexDigit(s[i]) && HexDigitValue(s[i]) < base
  }

  /** The value of a digit string read in `base`, most significant digit first. */
  function DigitsValue(s: string, base: nat): nat
    requires AllDigitsIn(s, base)
  {
    if |s| == 0 then 0
    else DigitsValue(s[..|s| - 1], base) * base + HexDigitValue(s[|s| - 1])
  }

  function Pow10(n: nat): (p: real)
    ensures p >= 1.0
  {
    if n == 0 then 1.0 else 10.0 * Pow10(n - 1)
  }

  /** Multiplier for a decimal exponent `k`, that is ten to the power `k`. */
  function Scale(k: int): (p: real)
    ensures p > 0.0
  {
    if k >= 0 then Pow10(k) else 1.0 / Pow10(-k)
  }

  /** A non-negative real times a positive real is non-negative. */
  lemma NonNegativeProduct(a: real, b: real)
    requires a >= 0.0 && b > 0.0
    ensures a * b >= 0.0
  {
  }

  /** Index of the first occurrence of `a` or `b` in `s`, or `|s|` if neither occurs. */
  function IndexOfEither(s: string, a: char, b: char): (i: nat)
    ensures i <= |s|
    ensures i < |s| ==> s[i] == a || s[i] == b
    ensures forall j :: 0 <= j < i ==> s[j] != a && s[j] != b
  {
    if |s| == 0 || s[0] == a || s[0] == b then 0 else 1 + IndexOfEither(s[1..], a, b)
  }

  /** Index of the first occurrence of `c` in `s`, or `|s|` if it does not occur. */
  function IndexOf(s: string, c: char): (i: nat)
    ensures i <= |s|
    ensures i < |s| ==> s[i] == c
    ensures forall j :: 0 <= j < i ==> s[j] != c
  {
    IndexOfEither(s, c, c)
  }

  /** The digits-and-point part of a decimal literal: `D.D?`, `.D` or `D`,
      where `D` is a non-empty digit run. */
  function ParseMantissa(m: string): (r: Option<real>)
    ensures r.Some? ==> r.value >= 0.0
    ensures r.Some? ==> |m| > 0 && (IsDigit(m[|m| - 1]) || m[|m| - 1] == '.')
  {
    var d := IndexOf(m, '.');
    var whole := m[..d];
    var frac := if d < |m| then m[d + 1..] else "";
    if AllDigitsIn(whole, 10) && AllDigitsIn(frac, 10) && |whole| + |frac| > 0 then
      Some(MantissaValue(whole, frac))
    else None
  }

  /** The number written `whole.frac` in decimal. */
  function MantissaValue(whole: string, frac: string): (v: real)
    requires AllDigitsIn(whole, 10) && AllDigitsIn(frac, 10)
    ensures v >= DigitsValue(whole, 10) as real
  {
    DigitsValue(whole, 10) as real + DigitsValue(frac, 10) as real / Pow10(|frac|)
  }

  /** The signed integer after an exponent indicator: an optional sign and a
      non-empty digit run. */
  function ParseSignedInteger(x: string): (r: Option<int>)
    ensures r.Some? ==> |x| > 0 && IsDigit(x[|x| - 1])
  {
    var digits := if |x| > 0 && (x[0] == '+' || x[0] == '-') then x[1..] else x;
    if |digits| > 0 && AllDigitsIn(digits, 10) then
      var n: int := DigitsValue(digits, 10);
      Some(if x[0] == '-' then -n else n)
    else None
  }

  /** An unsigned decimal literal: a mantissa followed by an optional exponent
      part `e`/`E` and a signed integer. */
  function ParseUnsignedDecimal(u: string): (r: Option<real>)
    ensures r.Some? ==> r.value >= 0.0
    ensures r.Some? ==> |u| > 0 && (IsDigit(u[|u| - 1]) || u[|u| - 1] == '.')
  {
    var e := IndexOfEither(u, 'e', 'E');
    var mant := ParseMantissa(u[..e]);
    if mant.None? then None
    else if e == |u| then
      assert u[..e] == u;
      mant
    else
      var exp := ParseSignedInteger(u[e + 1..]);
      if exp.None? then None
      else
        assert u[e + 1..][|u| - e - 2] == u[|u| - 1];
        var m, p := mant.value, Scale(exp.value);
        NonNegativeProduct(m, p);
        Some(m * p)
  }

  /** A decimal literal with an optional leading sign (ECMAScript
      StrDecimalLiteral without the `Infinity` spelling). A literal that
      parses ends in a digit or a point, so never in whitespace. */
  function ParseDecimal(t: string): (r: Option<real>)
    ensures r.Some? ==> |t| > 0 && (IsDigit(t[|t| - 1]) || t[|t| - 1] == '.')
    ensures r.Some? && |t| > 0 && t[0] != '-' ==> r.value >= 0.0
  {
    if |t| > 0 && (t[0] == '+' || t[0] == '-') then
      match ParseUnsignedDecimal(t[1..])
      case None => None
      case Some(v) => Some(if t[0] == '-' then -v else v)
    else ParseUnsignedDecimal(t)
  }

  /** `0x`/`0X`, `0o`/`0O` or `0b`/`0B` followed by a non-empty run of digits
      of that base; no sign is allowed. */
  function ParseNonDecimal(t: string): (r: Option<real>)
    ensures r.Some? ==> r.value >= 0.0
  {
    if |t| < 3 || t[0] != '0' then None
    else
      var base := if t[1] in "xX" then 16 else if t[1] in "oO" then 8 else if t[1] in "bB" then 2 else 0;
      if base != 0 && AllDigitsIn(t[2..], base) then Some(DigitsValue(t[2..], base) as real)
      else None
  }

  /** `Number(s)`: surrounding whitespace is ignored, a blank string is 0, and
      anything but one whole numeric literal is NaN. */
  function ToNumber(s: string): (r: Option<real>)
    ensures AllWhitespace(s) ==> r == Some(0.0)
    ensures r.Some? && !AllWhitespace(s) ==> ParseDecimal(Trim(s)) == r || ParseNonDecimal(Trim(s)) == r
    ensures r.None? <==> !AllWhitespace(s) && ParseDecimal(Trim(s)).None? && ParseNonDecimal(Trim(s)).None?
  {
    var t := Trim(s);
    TrimEmptyIffBlank(s);
    if t == "" then Some(0.0)
    else if ParseDecimal(t).Some? then ParseDecimal(t)
    else ParseNonDecimal(t)
  }

  predicate IsDecimalLiteral(p: string) {
    ParseDecimal(p).Some?
  }

  /** `parseFloat(s)`: skip leading whitespace, then read the longest prefix
      that is a decimal literal; NaN when no prefix is one. */
  function ParseFloat(s: string): (r: Option<real>)
    ensures r.Some? <==> exists n :: 0 < n <= |TrimStart(s)| && IsDecimalLiteral(TrimStart(s)[..n])
    ensures r.Some? ==> exists n :: 0 < n <= |TrimStart(s)| && ParseDecimal(TrimStart(s)[..n]) == r &&
                                    forall m :: n < m <= |TrimStart(s)| ==> !IsDecimalLiteral(TrimStart(s)[..m])
  {
    var t := TrimStart(s);
    var n := LongestPrefix(t, |t|, IsDecimalLiteral);
    if n == 0 then None else ParseDecimal(t[..n])
  }

  /** On a string whose trimmed form is one decimal literal, `parseFloat` and
      `Number` read the same value: the literal is the longest decimal
      prefix, since the whitespace after it can never end a literal. */
  lemma ParseFloatAgreesOnDecimal(s: string)
    requires IsDecimalLiteral(Trim(s))
    ensures ParseFloat(s) == ToNumber(s) == ParseDecimal(Trim(s))
  {
    var t := TrimStart(s);
    var n := |Trim(s)|;
    TrimStartExtendsTrim(s);
    assert t[..n] == Trim(s);
    NoLiteralExtendsIntoWhitespace(t, n);
    LongestPrefixIs(t, |t|, IsDecimalLiteral, n);
  }

  /** A decimal literal never ends in whitespace, so no prefix of `t` that
      reaches into a whitespace tail is a literal. */
  lemma NoLiteralExtendsIntoWhitespace(t: string, n: nat)
    requires n <= |t| && AllWhitespace(t[n..])
    ensures forall m :: n < m <= |t| ==> !IsDecimalLiteral(t[..m])
  {
    forall m | n < m <= |t|
      ensures !IsDecimalLiteral(t[..m])
    {
      var p := t[..m];
      assert p[|p| - 1] == t[n..][m - 1 - n];
    }
  }

  /** A run of decimal digits is a literal denoting its integer value. */
  lemma IntegerLiteral(w: string)
    requires |w| > 0 && AllDigitsIn(w, 10)
    ensures ParseDecimal(w) == Some(MantissaValue(w, ""))
  {
    forall i | 0 <= i < |w|
      ensures IsDigit(w[i])
    {
    }
    assert IndexOfEither(w, 'e', 'E') == |w|;
    assert w[..|w|] == w;
    assert IndexOf(w, '.') == |w|;
  }

  /** Digits, a point and digits form a literal denoting the whole part plus
      the fraction. */
  lemma PointLiteral(w: string, f: string)
    requires |w| > 0 && AllDigitsIn(w, 10) && AllDigitsIn(f, 10)
    ensures ParseDecimal(w + "." + f) == Some(MantissaValue(w, f))
  {
    var t := w + "." + f;
    forall i | 0 <= i < |t|
      ensures IsDigit(t[i]) || (i == |w| && t[i] == '.')
    {
      if i < |w| {
        assert t[i] == w[i];
      } else if i > |w| {
        assert t[i] == f[i - |w| - 1];
      }
    }
    PointMantissa(w, f);
    NoExponent(t);
    assert t[0] == w[0];
  }

  /** The mantissa `w.f` denotes the whole part plus the fraction. */
  lemma PointMantissa(w: string, f: string)
    requires |w| > 0 && AllDigitsIn(w, 10) && AllDigitsIn(f, 10)
    ensures ParseMantissa(w + "." + f) == Some(MantissaValue(w, f))
  {
    var t := w + "." + f;
    forall i | 0 <= i < |w|
      ensures t[i] != '.'
    {
      assert t[i] == w[i];
    }
    assert t[|w|] == '.';
    assert IndexOf(t, '.') == |w|;
    assert t[..|w|] == w;
    assert t[|w| + 1..] == f;
  }

  /** Without an exponent indicator, an unsigned literal is just its mantissa. */
  lemma NoExponent(u: string)
    requires forall i :: 0 <= i < |u| ==> u[i] != 'e' && u[i] != 'E'
    ensures ParseUnsignedDecimal(u) == ParseMantissa(u)
  {
    assert IndexOfEither(u, 'e', 'E') == |u|;
    assert u[..|u|] == u;
  }

  /** A digit run without a leading zero denotes a positive integer. */
  lemma {:induction false} DigitsValuePositive(w: string)
    requires |w| > 0 && AllDigitsIn(w, 10) && w[0] != '0'
    ensures DigitsValue(w, 10) > 0
  {
    if |w| > 1 {
      var init := w[..|w| - 1];
      assert init[0] == w[0];
      DigitsValuePositive(init);
    }
  }

  /** A price written `w.f` with a non-zero leading digit is a positive
      number to `Number`. */
  lemma PositivePointNumber(w: string, f: string)
    requires |w| > 0 && |f| > 0 && AllDigitsIn(w, 10) && AllDigitsIn(f, 10) && w[0] != '0'
    ensures ToNumber(w + "." + f) == Some(MantissaValue(w, f))
    ensures MantissaValue(w, f) > 0.0
  {
    var t := w + "." + f;
    PointLiteral(w, f);
    assert t[0] == w[0];
    assert t[|t| - 1] == f[|f| - 1];
    BareLiteral(t);
    DigitsValuePositive(w);
  }

  /** A literal with no surrounding whitespace is read by `Number` as itself. */
  lemma BareLiteral(t: string)
    requires |t| > 0 && !IsWhitespace(t[0]) && !IsWhitespace(t[|t| - 1])
    requires IsDecimalLiteral(t)
    ensures ToNumber(t) == ParseDecimal(t)
  {
    TrimOfBare(t);
  }

  /** `parseFloat` reads the first `n` characters after the leading
      whitespace when they form a literal and no longer prefix does. */
  lemma ParseFloatReads(s: string, n: nat)
    requires 0 < n <= |TrimStart(s)| && IsDecimalLiteral(TrimStart(s)[..n])
    requires forall m :: n < m <= |TrimStart(s)| ==> !IsDecimalLiteral(TrimStart(s)[..m])
    ensures ParseFloat(s) == ParseDecimal(TrimStart(s)[..n])
  {
    LongestPrefixIs(TrimStart(s), |TrimStart(s)|, IsDecimalLiteral, n);
  }

  /** A string that starts with a digit, has no exponent indicator and holds
      a character other than a digit or a point is not a decimal literal. */
  lemma StrayCharacter(p: string, i: nat)
    requires |p| > 0 && IsDigit(p[0])
    requires forall j :: 0 <= j < |p| ==> p[j] != 'e' && p[j] != 'E'
    requires i < |p| && !IsDigit(p[i]) && p[i] != '.'
    ensures !IsDecimalLiteral(p)
  {
    NoExponent(p);
    var d := IndexOf(p, '.');
    if i < d {
      assert p[..d][i] == p[i];
    } else {
      assert p[d + 1..][i - d - 1] == p[i];
    }
  }

  /** `"12abc"` is NaN to `Number` but 12 to `parseFloat`. */
  lemma TrailingGarbageDiverges()
    ensures ToNumber("12abc") == None
    ensures ParseFloat("12abc") == Some(12.0)
  {
    NumberRejectsTrailingGarbage();
    ParseFloatSkipsTrailingGarbage();
  }

  /** `Number` rejects the whole string at the stray `a`. */
  lemma NumberRejectsTrailingGarbage()
    ensures ToNumber("12abc") == None
  {
    var s := "12abc";
    TrimOfBare(s);
    StrayCharacter(s, 2);
  }

  /** `parseFloat` reads "12" and ignores the rest. */
  lemma ParseFloatSkipsTrailingGarbage()
    ensures ParseFloat("12abc") == Some(12.0)
  {
    var s := "12abc";
    TrimOfBare(s);
    forall m | 2 < m <= 5
      ensures !IsDecimalLiteral(s[..m])
    {
      StrayCharacter(s[..m], 2);
    }
    assert s[..2] == "12";
    IntegerLiteral("12");
    assert DigitsValue("12", 10) == 12 by {
      assert "12"[..1] == "1";
    }
    assert MantissaValue("12", "") == 12.0;
    ParseFloatReads(s, 2);
  }

  /** `"0x10"` is 16 to `Number` but 0 to `parseFloat`, which stops at the `x`. */
  lemma HexLiteralDiverges()
    ensures ToNumber("0x10") == Some(16.0)
    ensures ParseFloat("0x10") == Some(0.0)
  {
    NumberReadsHex();
    ParseFloatStopsAtHexMarker();
  }

  /** `Number` reads a hexadecimal literal. */
  lemma NumberReadsHex()
    ensures ToNumber("0x10") == Some(16.0)
  {
    var s := "0x10";
    TrimOfBare(s);
    StrayCharacter(s, 1);
    assert s[2..] == "10";
    assert AllDigitsIn("10", 16);
    assert DigitsValue("10", 16) == 16 by {
      assert "10"[..1] == "1";
    }
    assert ParseNonDecimal(s) == Some(16.0);
  }

  /** `parseFloat` only knows decimal literals, so it reads "0". */
  lemma ParseFloatStopsAtHexMarker()
    ensures ParseFloat("0x10") == Some(0.0)
  {
    var s := "0x10";
    TrimOfBare(s);
    forall m | 1 < m <= 4
      ensures !IsDecimalLiteral(s[..m])
    {
      StrayCharacter(s[..m], 1);
    }
    assert s[..1] == "0";
    IntegerLiteral("0");
    assert MantissaValue("0", "") == 0.0;
    ParseFloatReads(s, 1);
  }

  /** A blank string is 0 to `Number` but NaN to `parseFloat`. */
  lemma BlankDiverges()
    ensures ToNumber(" ") == Some(0.0)
    ensures ParseFloat(" ") == None
  {
  }
}
