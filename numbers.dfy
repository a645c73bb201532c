/**
 * Exact decimal numbers and the small number grammars the editor matches with regular
 * expressions before calling `Number`, `parseFloat` or `String` on a value.
 * JavaScript's doubles are modelled as exact decimals; NaN is kept outside `Dec`
 * (callers use `Option<Dec>`, with None for NaN).
 */
module Numbers {
  import opened Text
  import opened Wrappers

  /** The number `mant / 10^scale`. */
  datatype Dec = Dec(mant: int, scale: nat)

  function Value(d: Dec): real {
    d.mant as real / Pow10(d.scale) as real
  }

  predicate Negative(t: string) { t != [] && t[0] == '-' }

  /** `t` without its one optional leading minus sign. */
  function Unsigned(t: string): (u: string)
    ensures Negative(t) ==> t == "-" + u
    ensures !Negative(t) ==> t == u
  {
    if Negative(t) then t[1..] else t
  }

  /** `^-?\d+$` */
  predicate IsIntLiteral(t: string) {
    var u := Unsigned(t);
    u != [] && AllDigits(u)
  }

  /** `^-?(?:\d+|\d*\.\d+)$`: an integer, or digits, a point and at least one digit. */
  predicate IsDecimalLiteral(t: string) {
    var u := Unsigned(t);
    var k := IndexOf(u, '.');
    if k == |u| then u != [] && AllDigits(u)
    else AllDigits(u[..k]) && k + 1 < |u| && AllDigits(u[k + 1..])
  }

  /** `^-?\d+\.$`: an integer followed by a point and nothing else. */
  predicate IsTrailingDotLiteral(t: string) {
    |t| >= 2 && t[|t| - 1] == '.' && IsIntLiteral(t[..|t| - 1])
  }

  lemma TrailingDotShape(t: string)
    requires IsTrailingDotLiteral(t)
    ensures IndexOf(Unsigned(t), '.') == |Unsigned(t)| - 1
    ensures Unsigned(t) == Unsigned(t[..|t| - 1]) + "."
    ensures Negative(t) == Negative(t[..|t| - 1])
  {
    var v := t[..|t| - 1];
    assert t == v + ".";
    var u := Unsigned(t);
    assert u == Unsigned(v) + ".";
  }

  /** The number with sign `neg`, integer digits `ip` and fraction digits `fp`. */
  function DecOf(neg: bool, ip: string, fp: string): (d: Dec)
    requires AllDigits(ip) && AllDigits(fp)
    ensures d.scale == |fp|
  {
    var m: int := DigitsValue(ip) * Pow10(|fp|) + DigitsValue(fp);
    Dec(if neg then -m else m, |fp|)
  }

  /** The exact value `Number(t)` has for a literal that one of the two grammars above accepts. */
  function LiteralValue(t: string): (d: Dec)
    requires IsDecimalLiteral(t) || IsTrailingDotLiteral(t)
  {
    var u := Unsigned(t);
    var k := IndexOf(u, '.');
    if IsTrailingDotLiteral(t) then
      TrailingDotShape(t);
      assert u[..k] == Unsigned(t[..|t| - 1]);
      DecOf(Negative(t), u[..k], "")
    else
      DecOf(Negative(t), u[..k], if k < |u| then u[k + 1..] else [])
  }

  /**
   * `parseFloat` of a string that starts with a run of digits and points: the digits before
   * the first point, then the digits after it up to the next non-digit. None (NaN) when the
   * run has no digit before its second point.
   */
  function ParseFloatRun(neg: bool, body: string): (r: Option<Dec>)
  {
    var a := LeadingDigits(body, 0);
    var ip := body[..a];
    var fp := if a < |body| && body[a] == '.' then body[a + 1..LeadingDigits(body, a + 1)] else [];
    if |ip| + |fp| == 0 then None else Some(DecOf(neg, ip, fp))
  }

  /** The end of the run of decimal digits that starts at `i`. */
  function LeadingDigits(s: string, i: nat): (j: nat)
    requires i <= |s|
    ensures i <= j <= |s|
    ensures AllDigits(s[i..j])
    ensures j == |s| || !IsDigit(s[j])
    decreases |s| - i
  {
    if i < |s| && IsDigit(s[i]) then LeadingDigits(s, i + 1) else i
  }

  /** The end of the run of digits and points starting at `i`: the text `^-?[\d.]+` matches. */
  function NumberRunEnd(s: string, i: nat): (j: nat)
    requires i <= |s|
    ensures i <= j <= |s|
    ensures j == |s| || !(IsDigit(s[j]) || s[j] == '.')
    decreases |s| - i
  {
    if i < |s| && (IsDigit(s[i]) || s[i] == '.') then NumberRunEnd(s, i + 1) else i
  }

  /** A run of digits and points from `i` to `j`, stopped by something else, ends at `j`. */
  lemma {:induction false} NumberRunTo(s: string, i: nat, j: nat)
    requires i <= j <= |s|
    requires forall k :: i <= k < j ==> IsDigit(s[k]) || s[k] == '.'
    requires j == |s| || !(IsDigit(s[j]) || s[j] == '.')
    ensures NumberRunEnd(s, i) == j
    decreases j - i
  {
    if i < j {
      NumberRunTo(s, i + 1, j);
    }
  }

  /** The same number with trailing zero digits of the fraction removed. */
  function Normalize(d: Dec): (n: Dec)
    ensures Value(n) == Value(d)
    ensures n.scale == 0 || n.mant % 10 != 0
    ensures n.scale <= d.scale
    decreases d.scale
  {
    if d.scale > 0 && d.mant % 10 == 0 then
      var d' := Dec(d.mant / 10, d.scale - 1);
      ScaleDown(d.mant, d.scale);
      Normalize(d')
    else d
  }

  lemma ScaleDown(m: int, s: nat)
    requires s > 0 && m % 10 == 0
    ensures Value(Dec(m / 10, s - 1)) == Value(Dec(m, s))
  {
    var q := m / 10;
    assert m == 10 * q;
    var p := Pow10(s - 1) as real;
    assert Pow10(s) as real == 10.0 * p;
    assert (10 * q) as real == 10.0 * (q as real);
    assert (10.0 * (q as real)) / (10.0 * p) == (q as real) / p;
  }

  /** `v` in decimal, padded with leading zeros to at least `w` digits. */
  function PadDigits(v: nat, w: nat): (r: string)
    ensures AllDigits(r) && |r| >= w
    ensures DigitsValue(r) == v
  {
    var s := NatToString(v);
    NatToStringRoundTrip(v);
    if |s| >= w then s
    else
      var z := Zeros(w - |s|);
      DigitsValueAppend(z, s);
      ZerosValue(w - |s|);
      z + s
  }

  function Zeros(k: nat): (z: string)
    ensures |z| == k && AllDigits(z)
  {
    if k == 0 then "" else "0" + Zeros(k - 1)
  }

  lemma {:induction false} ZerosValue(k: nat)
    ensures DigitsValue(Zeros(k)) == 0
  {
    if k > 0 {
      ZerosValue(k - 1);
      assert Zeros(k) == Zeros(k - 1) + "0" by { ZerosSnoc(k - 1); }
      assert Zeros(k)[..k - 1] == Zeros(k - 1);
    }
  }

  lemma {:induction false} ZerosSnoc(k: nat)
    ensures "0" + Zeros(k) == Zeros(k) + "0"
  {
    if k > 0 { ZerosSnoc(k - 1); }
  }

  /**
   * `String(n)` for a number whose magnitude JavaScript writes without an exponent:
   * an optional minus sign, the integer digits, and the fraction digits without trailing zeros.
   */
  function FormatDec(d: Dec): string {
    var n := Normalize(d);
    FormatMagnitude(n.mant < 0, if n.mant < 0 then -n.mant else n.mant, n.scale)
  }

  /** The sign, then `a / 10^s` with its integer digits, a point and exactly `s` fraction digits. */
  function FormatMagnitude(neg: bool, a: nat, s: nat): string {
    var p := Pow10(s);
    DivModNat(a, p);
    (if neg then "-" else "") + NatToString(a / p)
      + (if s == 0 then "" else "." + PadDigits(a % p, s))
  }

  /** A number below `10^w` has at most `w` digits. */
  lemma {:induction false} NatToStringLength(v: nat, w: nat)
    requires 1 <= w && v < Pow10(w)
    ensures |NatToString(v)| <= w
  {
    if v >= 10 {
      assert Pow10(1) == 10;
      assert w >= 2;
      var p := Pow10(w - 1);
      assert Pow10(w) == 10 * p;
      assert (v / 10) * 10 <= v;
      NatToStringLength(v / 10, w - 1);
    }
  }

  /** A remainder below `10^w`, padded to `w` digits, takes exactly `w` digits. */
  lemma PadDigitsExact(v: nat, w: nat)
    requires 1 <= w && v < Pow10(w)
    ensures |PadDigits(v, w)| == w
  {
    NatToStringLength(v, w);
  }

  /**
   * The text `FormatDec` writes, taken apart: the sign, the integer digits `ip` and the
   * fraction digits `fp`, one per decimal place of the normal form; read back with `DecOf`
   * they give that normal form exactly.
   */
  lemma FormatDecShape(d: Dec) returns (neg: bool, ip: string, fp: string)
    ensures ip != [] && AllDigits(ip) && AllDigits(fp) && |fp| == Normalize(d).scale
    ensures FormatDec(d) == (if neg then "-" else "") + ip + (if fp == [] then "" else "." + fp)
    ensures DecOf(neg, ip, fp) == Normalize(d)
  {
    var n := Normalize(d);
    neg := n.mant < 0;
    var a: nat := if n.mant < 0 then -n.mant else n.mant;
    var p := Pow10(n.scale);
    DivModNat(a, p);
    ip := NatToString(a / p);
    NatToStringRoundTrip(a / p);
    if n.scale == 0 {
      fp := "";
      assert a / p == a;
    } else {
      fp := PadDigits(a % p, n.scale);
      PadDigitsExact(a % p, n.scale);
    }
    assert DigitsValue(ip) * Pow10(|fp|) + DigitsValue(fp) == a;
  }

  lemma DivModNat(a: nat, p: nat)
    requires p >= 1
    ensures a / p >= 0 && 0 <= a % p < p && a == (a / p) * p + a % p
  {
  }

  /** `Math.round(dx / 2)` for an integer `dx`: halves round towards positive infinity. */
  function HalfRounded(dx: int): (r: int)
    ensures dx <= 2 * r <= dx + 1
  {
    (dx + 1) / 2
  }

  /** The number plus an integer. */
  function AddInt(d: Dec, k: int): (r: Dec)
    ensures Value(r) == Value(d) + k as real
  {
    var p := Pow10(d.scale);
    var r := Dec(d.mant + k * p, d.scale);
    assert (d.mant + k * p) as real == d.mant as real + (k as real) * (p as real);
    assert ((k as real) * (p as real)) / (p as real) == k as real;
    r
  }

  /** `Math.max(0, n)`. */
  function AtLeastZero(d: Dec): (r: Dec)
    ensures Value(r) == if Value(d) < 0.0 then 0.0 else Value(d)
    ensures r.mant >= 0
  {
    SignOfValue(d);
    if d.mant < 0 then Dec(0, 0) else d
  }

  lemma SignOfValue(d: Dec)
    ensures (d.mant < 0) == (Value(d) < 0.0)
  {
    var p := Pow10(d.scale) as real;
    assert p > 0.0;
    if d.mant < 0 {
      assert d.mant as real < 0.0;
    } else {
      assert d.mant as real >= 0.0;
    }
  }
}
