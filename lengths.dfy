/**
 * The value normalisers of the style controls and the length parser of the spacing control.
 * Every control file carries its own copy of `normalizeLength`; the copies are identical and
 * are modelled once here.
 */
module Lengths {
  import opened Text
  import opened Numbers
  import opened Wrappers

  /**
   * `normalizeLength`: a bare number gets the unit "px", a number with a trailing point
   * loses the point and gets "px", a blank value becomes "" (which clears the inline
   * property), anything else passes through trimmed.
   */
  function NormalizeLength(raw: string): (r: string)
    ensures Trimmed(r)
  {
    var t := Trim(raw);
    if t == "" then ""
    else if IsDecimalLiteral(t) then t + "px"
    else if IsTrailingDotLiteral(t) then t[..|t| - 1] + "px"
    else t
  }

  /** `normalizeZIndex`: like `NormalizeLength`, but a number never gets a unit. */
  function NormalizeZIndex(raw: string): (r: string)
    ensures Trimmed(r)
  {
    var t := Trim(raw);
    if t == "" then ""
    else if IsTrailingDotLiteral(t) then t[..|t| - 1]
    else t
  }

  /** `normalizeOpacity`: the trimmed value, "" when blank. */
  function NormalizeOpacity(raw: string): (r: string)
    ensures Trimmed(r)
    ensures r == "" <==> Blank(raw)
  {
    Trim(raw)
  }

  /** The normaliser a text field applies to what the user typed before previewing it. */
  datatype Normalizer = LengthNorm | ZIndexNorm | OpacityNorm | TrimNorm

  function Normalize(n: Normalizer, raw: string): (r: string)
    ensures Trimmed(r)
  {
    match n
    case LengthNorm => NormalizeLength(raw)
    case ZIndexNorm => NormalizeZIndex(raw)
    case OpacityNorm => NormalizeOpacity(raw)
    case TrimNorm => Trim(raw)
  }

  /** A string ending in a character that is neither a digit nor a point is no number literal. */
  lemma NotLiteral(t: string)
    requires t != [] && !IsDigit(t[|t| - 1]) && t[|t| - 1] != '.'
    ensures !IsDecimalLiteral(t) && !IsTrailingDotLiteral(t)
  {
    var u := Unsigned(t);
    if u != [] {
      assert u[|u| - 1] == t[|t| - 1];
      var k := IndexOf(u, '.');
      if k < |u| {
        assert u[k + 1..][|u| - k - 2] == u[|u| - 1];
      }
    }
  }

  lemma {:induction false} NormalizeLengthIdempotent(raw: string)
    ensures NormalizeLength(NormalizeLength(raw)) == NormalizeLength(raw)
  {
    var t := Trim(raw);
    var r := NormalizeLength(raw);
    if t != "" {
      if IsDecimalLiteral(t) || IsTrailingDotLiteral(t) {
        NotLiteral(r);
      }
      TrimmedIsFixed(r);
    }
  }

  lemma {:induction false} NormalizeZIndexIdempotent(raw: string)
    ensures NormalizeZIndex(NormalizeZIndex(raw)) == NormalizeZIndex(raw)
  {
    var t := Trim(raw);
    var r := NormalizeZIndex(raw);
    TrimmedIsFixed(r);
    if t != "" && IsTrailingDotLiteral(t) {
      var u := Unsigned(r);
      assert u != [] && AllDigits(u);
      assert r[|r| - 1] == u[|u| - 1];
    }
  }

  /** The normalisers produce "" exactly for blank input, which clears the inline property. */
  lemma NormalizeBlank(n: Normalizer, raw: string)
    ensures Normalize(n, raw) == "" <==> Blank(raw)
  {
  }

  /**
   * `parseLength`: 0 for a blank value; the number `parseFloat` reads when what follows the
   * leading run of digits and points is nothing or the unit "px" (in any case); NaN (None)
   * otherwise.
   */
  function ParseLength(value: string): (r: Option<Dec>)
    ensures Blank(value) ==> r == Some(Dec(0, 0))
  {
    ParseTrimmedLength(Trim(value))
  }

  function ParseTrimmedLength(t: string): Option<Dec> {
    if t == "" then Some(Dec(0, 0))
    else
      var u := Unsigned(t);
      var n := NumberRunEnd(u, 0);
      if n == 0 then None
      else
        var unit := Lower(Trim(u[n..]));
        if unit == "" || unit == "px" then ParseFloatRun(Negative(t), u[..n]) else None
  }

  lemma NumberRunOf(u: string, x: string)
    requires forall k :: 0 <= k < |u| ==> IsDigit(u[k]) || u[k] == '.'
    requires x == [] || !(IsDigit(x[0]) || x[0] == '.')
    ensures NumberRunEnd(u + x, 0) == |u|
  {
    assert forall k :: 0 <= k < |u| ==> (u + x)[k] == u[k];
    assert |u| < |u + x| ==> (u + x)[|u|] == x[0];
    NumberRunTo(u + x, 0, |u|);
  }

  lemma ParseFloatRunTrailingDot(neg: bool, w: string)
    requires w != [] && AllDigits(w)
    ensures ParseFloatRun(neg, w + ".") == ParseFloatRun(neg, w)
  {
    var b := w + ".";
    assert LeadingDigits(w, 0) == |w| by { LeadingDigitsAll(w, 0); }
    assert LeadingDigits(b, 0) == |w| by {
      LeadingDigitsAll(w, 0);
      LeadingDigitsPrefix(w, ".", 0);
    }
    assert b[..|w|] == w;
    assert b[|w|] == '.';
    assert LeadingDigits(b, |w| + 1) == |w| + 1;
    assert b[|w| + 1..|w| + 1] == "";
    assert w + "" == w;
  }

  lemma {:induction false} LeadingDigitsAll(w: string, i: nat)
    requires i <= |w| && AllDigits(w)
    ensures LeadingDigits(w, i) == |w|
    decreases |w| - i
  {
    if i < |w| { LeadingDigitsAll(w, i + 1); }
  }

  lemma {:induction false} LeadingDigitsPrefix(w: string, x: string, i: nat)
    requires i <= |w| && AllDigits(w[i..]) && x != [] && !IsDigit(x[0])
    ensures LeadingDigits(w + x, i) == |w|
    decreases |w| - i
  {
    if i < |w| {
      assert (w + x)[i] == w[i];
      assert w[i + 1..] == w[i..][1..];
      LeadingDigitsPrefix(w, x, i + 1);
    } else {
      assert (w + x)[i] == x[0];
    }
  }

  /** Normalising a typed length never changes the number the spacing control reads from it. */
  lemma {:induction false} ParseLengthOfNormalized(raw: string)
    ensures ParseLength(NormalizeLength(raw)) == ParseLength(raw)
  {
    var t := Trim(raw);
    TrimmedIsFixed(t);
    if t != "" && IsDecimalLiteral(t) {
      NormalizedDecimal(raw);
    } else if t != "" && IsTrailingDotLiteral(t) {
      NormalizedTrailingDot(raw);
    }
  }

  lemma NormalizedDecimal(raw: string)
    requires Trim(raw) != "" && IsDecimalLiteral(Trim(raw))
    ensures ParseLength(NormalizeLength(raw)) == ParseLength(raw)
  {
    var t := Trim(raw);
    TrimmedIsFixed(t);
    ParseLengthDecimal(t);
  }

  lemma NormalizedTrailingDot(raw: string)
    requires Trim(raw) != "" && !IsDecimalLiteral(Trim(raw)) && IsTrailingDotLiteral(Trim(raw))
    ensures ParseLength(NormalizeLength(raw)) == ParseLength(raw)
  {
    var t := Trim(raw);
    TrimmedIsFixed(t);
    ParseLengthTrailingDot(t);
  }

  lemma ParseLengthDecimal(t: string)
    requires t != [] && Trimmed(t) && IsDecimalLiteral(t)
    ensures ParseLength(t + "px") == ParseLength(t)
  {
    TrimmedIsFixed(t);
    TrimmedIsFixed(t + "px");
    DecimalLiteralRun(t);
    assert t + "" == t;
    ParseRunWithUnit(t, "");
    ParseRunWithUnit(t, "px");
  }

  /** A sign and a run of digits and points, followed by nothing or "px", parse as the run. */
  lemma ParseRunWithUnit(t: string, x: string)
    requires t != [] && (x == "" || x == "px")
    requires Unsigned(t) != []
    requires forall k :: 0 <= k < |Unsigned(t)| ==> IsDigit(Unsigned(t)[k]) || Unsigned(t)[k] == '.'
    ensures ParseTrimmedLength(t + x) == ParseFloatRun(Negative(t), Unsigned(t))
  {
    var u := Unsigned(t);
    var tx := t + x;
    assert tx != "";
    assert Unsigned(tx) == u + x;
    assert Negative(tx) == Negative(t);
    NumberRunOf(u, x);
    var n := NumberRunEnd(u + x, 0);
    assert n == |u| && n != 0;
    assert (u + x)[..n] == u;
    assert (u + x)[n..] == x;
    PxUnit();
  }

  lemma ParseLengthTrailingDot(t: string)
    requires t != [] && Trimmed(t) && IsTrailingDotLiteral(t)
    ensures ParseLength(t[..|t| - 1] + "px") == ParseLength(t)
  {
    var v := t[..|t| - 1];
    var w := Unsigned(v);
    var r := v + "px";
    TrailingDotShape(t);
    TrimmedIsFixed(t);
    TrimmedIsFixed(r);
    assert Unsigned(r) == w + "px";
    NumberRunOf(w + ".", "");
    assert (w + ".") + "" == w + ".";
    NumberRunOf(w, "px");
    assert (w + "px")[..|w|] == w;
    assert (w + "px")[|w|..] == "px";
    assert (w + ".")[|w| + 1..] == "";
    assert (w + ".")[..|w| + 1] == w + ".";
    PxUnit();
    ParseFloatRunTrailingDot(Negative(t), w);
  }

  lemma PxUnit()
    ensures Lower(Trim("px")) == "px" && Lower(Trim("")) == ""
  {
    assert Trim("px") == "px" by { TrimmedIsFixed("px"); }
  }

  lemma DecimalLiteralRun(t: string)
    requires IsDecimalLiteral(t)
    ensures Unsigned(t) != []
    ensures forall k :: 0 <= k < |Unsigned(t)| ==> IsDigit(Unsigned(t)[k]) || Unsigned(t)[k] == '.'
  {
    var u := Unsigned(t);
    var k := IndexOf(u, '.');
    if k < |u| {
      forall i | 0 <= i < |u| ensures IsDigit(u[i]) || u[i] == '.' {
        if i < k { assert u[..k][i] == u[i]; }
        else if i > k { assert u[k + 1..][i - k - 1] == u[i]; }
      }
    }
  }

  lemma NormalizeLengthOfInteger()
    ensures NormalizeLength("10") == "10px"
  {
    TrimmedIsFixed("10");
    assert Unsigned("10") == "10";
    assert IndexOf("10", '.') == 2;
  }

  lemma NormalizeLengthOfTrailingDot()
    ensures NormalizeLength("10.") == "10px"
  {
    TrimmedIsFixed("10.");
    assert Unsigned("10.") == "10.";
    assert IndexOf("10.", '.') == 2;
    assert "10."[..2] == "10";
    assert IsTrailingDotLiteral("10.");
  }

  lemma NormalizeLengthOfFraction()
    ensures NormalizeLength("-.5") == "-.5px"
  {
    TrimmedIsFixed("-.5");
    assert Unsigned("-.5") == ".5";
    assert IndexOf(".5", '.') == 0;
    assert ".5"[..0] == "" && ".5"[1..] == "5";
  }

  lemma NormalizeLengthKeepsPercent()
    ensures NormalizeLength("50%") == "50%"
  {
    TrimmedIsFixed("50%");
    NotLiteral("50%");
  }

  lemma NormalizeLengthKeepsKeyword()
    ensures NormalizeLength("auto") == "auto"
  {
    TrimmedIsFixed("auto");
    NotLiteral("auto");
  }

  lemma NormalizeLengthOfEmpty()
    ensures NormalizeLength("") == ""
  {
  }

  /** A z-index with a trailing point loses the point and, unlike a length, gets no unit. */
  lemma NormalizeZIndexOfTrailingDot()
    ensures NormalizeZIndex("10.") == "10"
  {
    TrimmedIsFixed("10.");
    assert Unsigned("10.") == "10.";
    assert IndexOf("10.", '.') == 2;
    assert "10."[..2] == "10";
    assert IsTrailingDotLiteral("10.");
  }

  /** A whole z-index stays as it is. */
  lemma NormalizeZIndexOfInteger()
    ensures NormalizeZIndex("10") == "10"
  {
    TrimmedIsFixed("10");
    assert Unsigned("10") == "10";
    assert IndexOf("10", '.') == 2;
  }

  /** A bare number, or a number with the unit "px", parses as the number's own value. */
  lemma ParseLengthOfNumber(t: string, unit: string)
    requires t != [] && Trimmed(t) && IsDecimalLiteral(t) && (unit == "" || unit == "px")
    ensures ParseLength(t + unit) == Some(LiteralValue(t))
  {
    TrimmedIsFixed(t + unit);
    DecimalLiteralRun(t);
    ParseRunWithUnit(t, unit);
    ParseFloatRunOfLiteral(t);
  }

  lemma ParseFloatRunOfLiteral(t: string)
    requires IsDecimalLiteral(t)
    ensures ParseFloatRun(Negative(t), Unsigned(t)) == Some(LiteralValue(t))
  {
    DecimalIsNotTrailingDot(t);
    var u := Unsigned(t);
    var k := IndexOf(u, '.');
    if k == |u| {
      IntegerRun(t);
    } else {
      FractionRun(t);
    }
  }

  lemma DecimalIsNotTrailingDot(t: string)
    requires IsDecimalLiteral(t)
    ensures !IsTrailingDotLiteral(t)
  {
    var u := Unsigned(t);
    assert u != [] && t[|t| - 1] == u[|u| - 1];
    var k := IndexOf(u, '.');
    if k < |u| {
      assert u[k + 1..][|u| - k - 2] == u[|u| - 1];
    }
  }

  lemma IntegerRun(t: string)
    requires IsDecimalLiteral(t) && !IsTrailingDotLiteral(t)
    requires IndexOf(Unsigned(t), '.') == |Unsigned(t)|
    ensures ParseFloatRun(Negative(t), Unsigned(t)) == Some(LiteralValue(t))
  {
    var u := Unsigned(t);
    LeadingDigitsAll(u, 0);
    assert u[..|u|] == u;
  }

  lemma FractionRun(t: string)
    requires IsDecimalLiteral(t) && !IsTrailingDotLiteral(t)
    requires IndexOf(Unsigned(t), '.') < |Unsigned(t)|
    ensures ParseFloatRun(Negative(t), Unsigned(t)) == Some(LiteralValue(t))
  {
    var u := Unsigned(t);
    var k := IndexOf(u, '.');
    FractionValue(t, u, k);
    FractionParts(u, k);
    ParseFloatRunWithPoint(Negative(t), u, k);
  }

  /** A literal with a point and digits after it: its two digit runs and its value. */
  lemma FractionValue(t: string, u: string, k: nat)
    requires IsDecimalLiteral(t) && !IsTrailingDotLiteral(t)
    requires u == Unsigned(t) && k == IndexOf(u, '.') && k < |u|
    ensures AllDigits(u[..k]) && k + 1 < |u| && AllDigits(u[k + 1..])
    ensures LiteralValue(t) == DecOf(Negative(t), u[..k], u[k + 1..])
  {
  }

  /** The digits before the first point, then all digits to the end. */
  lemma FractionParts(u: string, k: nat)
    requires k == IndexOf(u, '.') && k < |u|
    requires AllDigits(u[..k]) && k + 1 < |u| && AllDigits(u[k + 1..])
    ensures LeadingDigits(u, 0) == k && LeadingDigits(u, k + 1) == |u|
  {
    assert u == u[..k] + u[k..];
    LeadingDigitsPrefix(u[..k], u[k..], 0);
    LeadingDigitsOfRun(u, k + 1);
  }

  lemma ParseFloatRunWithPoint(neg: bool, u: string, k: nat)
    requires k < |u| && u[k] == '.'
    requires LeadingDigits(u, 0) == k && LeadingDigits(u, k + 1) == |u|
    ensures AllDigits(u[..k]) && AllDigits(u[k + 1..])
    ensures ParseFloatRun(neg, u) == if k + 1 == |u| && k == 0 then None else Some(DecOf(neg, u[..k], u[k + 1..]))
  {
    assert u[k + 1..|u|] == u[k + 1..];
  }

  lemma {:induction false} LeadingDigitsOfRun(w: string, i: nat)
    requires i <= |w| && AllDigits(w[i..])
    ensures LeadingDigits(w, i) == |w|
    decreases |w| - i
  {
    if i < |w| {
      assert w[i] == w[i..][0];
      assert w[i + 1..] == w[i..][1..];
      LeadingDigitsOfRun(w, i + 1);
    }
  }
}
