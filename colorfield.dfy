/**
 * The colour field: a text input with a swatch button and a hidden native colour picker.
 * The pure helpers turn CSS colour strings into the "#rrggbb" form the native picker
 * accepts; the class keeps the field's value, placeholder, swatch and last resolved hex.
 */
module ColorFields {
  import opened Text
  import opened Numbers
  import opened Wrappers

  /** `DEFAULT_COLOR_HEX`, what the native picker shows before any colour resolved. */
  const DefaultColorHex: string := "#000000"

  predicate IsLowerHexDigit(c: char) { IsDigit(c) || 'a' <= c <= 'f' }

  /** "#" followed by six lower-case hexadecimal digits. */
  predicate IsHex6(s: string) {
    |s| == 7 && s[0] == '#' && forall i :: 1 <= i < 7 ==> IsLowerHexDigit(s[i])
  }

  /** `Math.round` of an exact decimal: the nearest integer, halves towards positive infinity. */
  function Round(d: Dec): (r: int)
    ensures 2 * d.mant - Pow10(d.scale) < 2 * r * Pow10(d.scale) <= 2 * d.mant + Pow10(d.scale)
  {
    var p := Pow10(d.scale);
    var r := (2 * d.mant + p) / (2 * p);
    DivBounds(2 * d.mant + p, 2 * p);
    assert 2 * r * p == (2 * p) * r;
    r
  }

  lemma DivBounds(a: int, b: int)
    requires b > 0
    ensures b * (a / b) <= a < b * (a / b) + b
  {
  }

  /** `clampByte` after rounding: the integer limited to [0, 255]. */
  function Clamp(n: int): (r: nat)
    ensures r <= 255
    ensures 0 <= n <= 255 ==> r == n
    ensures n < 0 ==> r == 0
    ensures n > 255 ==> r == 255
  {
    if n < 0 then 0 else if n > 255 then 255 else n
  }

  /** `clampByte`: a finite number rounded and limited to [0, 255]. */
  function ClampByte(d: Dec): (r: nat)
    ensures r <= 255
  {
    Clamp(Round(d))
  }

  /** `toHexByte`: the clamped byte as exactly two lower-case hexadecimal digits. */
  function ToHexByte(d: Dec): (r: string)
    ensures IsHexPair(r)
    ensures AllHexDigits(r) && HexValue(r) == ClampByte(d)
  {
    var v := ClampByte(d);
    var r := [HexChar(v / 16), HexChar(v % 16)];
    assert r[..1] == [HexChar(v / 16)] && r[..1][..0] == [];
    assert HexValue(r[..1]) == v / 16;
    r
  }

  /** The three captured components of `/rgba?\(\s*([0-9.]+)\s*,\s*([0-9.]+)\s*,\s*([0-9.]+)/i`. */
  datatype RgbMatch = RgbMatch(r: string, g: string, b: string)

  /** Whether the pattern matches starting exactly at position `p`, and what it captures. */
  function MatchRgbAt(s: string, p: nat): Option<RgbMatch>
    requires p <= |s|
  {
    if p + 3 > |s| || LowerChar(s[p]) != 'r' || LowerChar(s[p + 1]) != 'g' || LowerChar(s[p + 2]) != 'b' then None
    else
      var q := if p + 3 < |s| && LowerChar(s[p + 3]) == 'a' then p + 4 else p + 3;
      if q >= |s| || s[q] != '(' then None else MatchArgs(s, q + 1)
  }

  /** The text after `rgb(`: three groups, the first two each followed by optional space and ','. */
  function MatchArgs(s: string, i: nat): Option<RgbMatch>
    requires i <= |s|
  {
    var a := GroupAt(s, i);
    if a.None? || !CommaAt(s, a.value.end) then None
    else
      var b := GroupAt(s, SkipSpace(s, a.value.end) + 1);
      if b.None? || !CommaAt(s, b.value.end) then None
      else
        var c := GroupAt(s, SkipSpace(s, b.value.end) + 1);
        if c.None? then None else Some(RgbMatch(a.value.text, b.value.text, c.value.text))
  }

  /** A captured group and the position just after it. */
  datatype Capture = Capture(text: string, end: nat)

  /** `\s*([0-9.]+)` at `i`: the longest non-empty run of digits and points after optional space. */
  function GroupAt(s: string, i: nat): (r: Option<Capture>)
    requires i <= |s|
    ensures r.Some? ==> i < r.value.end <= |s|
  {
    var a0 := SkipSpace(s, i);
    var a1 := NumberRunEnd(s, a0);
    if a1 == a0 then None else Some(Capture(s[a0..a1], a1))
  }

  /** `\s*,` at `i`. */
  predicate CommaAt(s: string, i: nat)
    requires i <= |s|
  {
    var j := SkipSpace(s, i);
    j < |s| && s[j] == ','
  }

  /** The leftmost match at or after `p`, as `String.prototype.match` finds it. */
  function FirstRgbMatch(s: string, p: nat): (m: Option<RgbMatch>)
    requires p <= |s|
    decreases |s| - p
  {
    if MatchRgbAt(s, p).Some? then MatchRgbAt(s, p)
    else if p == |s| then None
    else FirstRgbMatch(s, p + 1)
  }

  /** `Number(c)` for a run of digits and points: NaN (None) unless it is a number literal. */
  function ComponentValue(c: string): Option<Dec> {
    if IsDecimalLiteral(c) || IsTrailingDotLiteral(c) then Some(LiteralValue(c)) else None
  }

  /**
   * `rgbToHex`: the first `rgb(`/`rgba(` triple anywhere in the string, each component
   * rounded, clamped and written as two hex digits; None when there is no match or a
   * component is not a number.
   */
  function RgbToHex(s: string): (r: Option<string>)
    ensures r.Some? ==> IsHex6(r.value)
  {
    match FirstRgbMatch(s, 0)
    case None => None
    case Some(m) =>
      var r := ComponentValue(m.r);
      var g := ComponentValue(m.g);
      var b := ComponentValue(m.b);
      if r.None? || g.None? || b.None? then None
      else Some(HexColor(ToHexByte(r.value), ToHexByte(g.value), ToHexByte(b.value)))
  }

  predicate IsHexPair(h: string) { |h| == 2 && IsLowerHexDigit(h[0]) && IsLowerHexDigit(h[1]) }

  /** "#" and three two-digit components. */
  function HexColor(r: string, g: string, b: string): (c: string)
    requires IsHexPair(r) && IsHexPair(g) && IsHexPair(b)
    ensures IsHex6(c)
  {
    var c := "#" + r + g + b;
    assert c[1] == r[0] && c[2] == r[1] && c[3] == g[0] && c[4] == g[1] && c[5] == b[0] && c[6] == b[1];
    c
  }

  /** The form `getComputedStyle` reports an opaque colour in. */
  function RgbText(r: nat, g: nat, b: nat): string {
    "rgb(" + NatToString(r) + ", " + NatToString(g) + ", " + NatToString(b) + ")"
  }

  /** A computed `rgb(r, g, b)` converts to the hex of its clamped components. */
  lemma RgbToHexOfRgbText(r: nat, g: nat, b: nat)
    ensures RgbToHex(RgbText(r, g, b)) == Some(HexColor(ToHexByte(Dec(r, 0)), ToHexByte(Dec(g, 0)), ToHexByte(Dec(b, 0))))
  {
    RgbTextMatch(NatToString(r), NatToString(g), NatToString(b));
    NaturalComponent(r);
    NaturalComponent(g);
    NaturalComponent(b);
  }

  /** The pattern finds the three numbers of `rgb(A, B, C)` at the very start. */
  lemma {:induction false} RgbTextMatch(A: string, B: string, C: string)
    requires A != [] && B != [] && C != [] && AllDigits(A) && AllDigits(B) && AllDigits(C)
    ensures FirstRgbMatch("rgb(" + A + ", " + B + ", " + C + ")", 0) == Some(RgbMatch(A, B, C))
  {
    var s := "rgb(" + A + ", " + B + ", " + C + ")";
    RgbTextLayout(A, B, C);
    ArgsMatch(s, 4, A, B, C);
    RgbPrefix(s);
  }

  /** Where the parts of `rgb(A, B, C)` sit. */
  lemma RgbTextLayout(A: string, B: string, C: string)
    ensures var s := "rgb(" + A + ", " + B + ", " + C + ")";
      var i1 := 4 + |A|;
      var j1 := i1 + 2 + |B|;
      var k1 := j1 + 2 + |C|;
      && |s| == k1 + 1
      && s[0] == 'r' && s[1] == 'g' && s[2] == 'b' && s[3] == '('
      && s[4..i1] == A && s[i1] == ',' && s[i1 + 1] == ' '
      && s[i1 + 2..j1] == B && s[j1] == ',' && s[j1 + 1] == ' '
      && s[j1 + 2..k1] == C && s[k1] == ')'
  {
    var s := "rgb(" + A + ", " + B + ", " + C + ")";
    var i1 := 4 + |A|;
    var j1 := i1 + 2 + |B|;
    var k1 := j1 + 2 + |C|;
    assert s[4..i1] == A;
    assert s[i1 + 2..j1] == B;
    assert s[j1 + 2..k1] == C;
  }

  /** Text starting with `rgb(` matches at 0 exactly when its arguments do. */
  lemma {:induction false} RgbPrefix(s: string)
    requires |s| > 4 && s[0] == 'r' && s[1] == 'g' && s[2] == 'b' && s[3] == '('
    ensures MatchRgbAt(s, 0) == MatchArgs(s, 4)
    ensures MatchArgs(s, 4).Some? ==> FirstRgbMatch(s, 0) == MatchArgs(s, 4)
  {
  }

  lemma {:induction false} ArgsMatch(s: string, i: nat, A: string, B: string, C: string)
    requires A != [] && B != [] && C != [] && AllDigits(A) && AllDigits(B) && AllDigits(C)
    requires i + |A| + |B| + |C| + 4 < |s|
    requires s[i..i + |A|] == A && s[i + |A|] == ',' && s[i + |A| + 1] == ' '
    requires s[i + |A| + 2..i + |A| + 2 + |B|] == B && s[i + |A| + 2 + |B|] == ',' && s[i + |A| + 3 + |B|] == ' '
    requires s[i + |A| + |B| + 4..i + |A| + |B| + 4 + |C|] == C && s[i + |A| + |B| + |C| + 4] == ')'
    ensures MatchArgs(s, i) == Some(RgbMatch(A, B, C))
  {
    var i1 := i + |A|;
    var j1 := i1 + 2 + |B|;
    var k0 := j1 + 2;
    GroupFrom(s, i, i, A);
    SpacesTo(s, i1, i1);
    GroupFrom(s, i1 + 1, i1 + 2, B);
    SpacesTo(s, j1, j1);
    GroupFrom(s, j1 + 1, k0, C);
    ArgsFromGroups(s, i, Capture(A, i1), Capture(B, j1), Capture(C, k0 + |C|));
  }

  lemma {:induction false} ArgsFromGroups(s: string, i: nat, ca: Capture, cb: Capture, cc: Capture)
    requires i <= ca.end < cb.end < |s| && s[ca.end] == ',' && s[cb.end] == ','
    requires SkipSpace(s, ca.end) == ca.end && SkipSpace(s, cb.end) == cb.end
    requires GroupAt(s, i) == Some(ca)
    requires GroupAt(s, ca.end + 1) == Some(cb)
    requires GroupAt(s, cb.end + 1) == Some(cc)
    ensures MatchArgs(s, i) == Some(RgbMatch(ca.text, cb.text, cc.text))
  {
  }

  /** Optional space from `p` to `i`, then the digits `w`, then neither digit nor point. */
  lemma {:induction false} GroupFrom(s: string, p: nat, i: nat, w: string)
    requires p <= i && i + |w| < |s| && s[i..i + |w|] == w && w != [] && AllDigits(w)
    requires forall k :: p <= k < i ==> IsSpace(s[k])
    requires !IsDigit(s[i + |w|]) && s[i + |w|] != '.'
    ensures GroupAt(s, p) == Some(Capture(w, i + |w|))
  {
    assert IsDigit(s[i]) by { assert s[i] == w[0]; }
    SpacesTo(s, p, i);
    RunToEnd(s, i, i + |w|);
  }

  lemma {:induction false} SpacesTo(s: string, p: nat, i: nat)
    requires p <= i < |s| && !IsSpace(s[i])
    requires forall k :: p <= k < i ==> IsSpace(s[k])
    ensures SkipSpace(s, p) == i
    decreases i - p
  {
    if p < i {
      SpacesTo(s, p + 1, i);
    }
  }

  lemma {:induction false} RunToEnd(s: string, i: nat, j: nat)
    requires i <= j < |s|
    requires forall k :: i <= k < j ==> IsDigit(s[k])
    requires !IsDigit(s[j]) && s[j] != '.'
    ensures NumberRunEnd(s, i) == j
    decreases j - i
  {
    if i < j {
      RunToEnd(s, i + 1, j);
    }
  }

  /** `Number` of a natural number's decimal digits is that number. */
  lemma NaturalComponent(n: nat)
    ensures ComponentValue(NatToString(n)) == Some(Dec(n, 0))
  {
    var w := NatToString(n);
    assert Unsigned(w) == w;
    assert IndexOf(w, '.') == |w|;
    assert w[..|w|] == w;
    NatToStringRoundTrip(n);
  }

  /** A whole number rounds to itself; a byte clamps to itself. */
  lemma ClampWhole(n: nat)
    ensures ClampByte(Dec(n, 0)) == if n <= 255 then n else 255
  {
  }

  predicate AllLowerHex(h: string) { forall i :: 0 <= i < |h| ==> IsLowerHexDigit(h[i]) }

  /** "#" and each of the first three digits of `h` written twice. */
  function Doubled(h: string): (r: string)
    requires |h| >= 3
    ensures AllLowerHex(h) ==> IsHex6(r)
  {
    "#" + [h[0], h[0], h[1], h[1], h[2], h[2]]
  }

  /**
   * `normalizeHex`: the trimmed, lower-cased input in "#rrggbb" form: six digits kept,
   * three digits doubled, eight digits cut to six, four digits doubled without the alpha
   * digit; None for anything else, including input without a leading '#'.
   */
  function NormalizeHex(raw: string): (r: Option<string>)
    ensures r.Some? ==> IsHex6(r.value)
  {
    HexForm(Lower(Trim(raw)))
  }

  /** The "#rrggbb" form of an already trimmed and lower-cased value. */
  function HexForm(v: string): (r: Option<string>)
    ensures r.Some? ==> IsHex6(r.value)
  {
    if !StartsWith(v, "#") then None
    else
      assert v[0] == v[..1][0] == '#';
      var h := v[1..];
      if |h| == 6 && AllLowerHex(h) then Some(v)
      else if |h| == 3 && AllLowerHex(h) then Some(Doubled(h))
      else if |h| == 8 && AllLowerHex(h) then
        assert v[..7][0] == '#';
        assert forall i :: 1 <= i < 7 ==> v[..7][i] == h[i - 1] && IsLowerHexDigit(h[i - 1]);
        Some(v[..7])
      else if |h| == 4 && AllLowerHex(h) then Some(Doubled(h))
      else None
  }

  /** Which inputs `NormalizeHex` accepts: '#' and 3, 4, 6 or 8 hex digits, in any case. */
  lemma NormalizeHexAccepts(raw: string)
    ensures NormalizeHex(raw).Some? <==>
      var v := Lower(Trim(raw));
      |v| in {4, 5, 7, 9} && v[0] == '#' && AllLowerHex(v[1..])
  {
  }

  /** A normalised hex colour is its own normal form. */
  lemma NormalizeHexIdempotent(raw: string)
    requires NormalizeHex(raw).Some?
    ensures NormalizeHex(NormalizeHex(raw).value) == NormalizeHex(raw)
  {
    var r := NormalizeHex(raw).value;
    HexIsFixed(r);
  }

  lemma HexIsFixed(r: string)
    requires IsHex6(r)
    ensures NormalizeHex(r) == Some(r)
  {
    TrimmedIsFixed(r);
    assert Lower(r) == r;
    assert r[..1] == "#";
    assert forall i :: 0 <= i < 6 ==> r[1..][i] == r[i + 1];
  }

  /** Three digits are doubled, in lower case. */
  lemma NormalizeHexOfShort()
    ensures NormalizeHex("#ABC") == Some("#aabbcc")
  {
    HexLiteral("#ABC", "#abc");
    assert "#abc"[1..] == "abc";
    assert AllLowerHex("abc");
    assert Doubled("abc") == "#aabbcc";
  }

  /** Four digits are doubled without the alpha digit. */
  lemma NormalizeHexOfShortAlpha()
    ensures NormalizeHex("#abcd") == Some("#aabbcc")
  {
    HexLiteral("#abcd", "#abcd");
    assert "#abcd"[1..] == "abcd";
    assert AllLowerHex("abcd");
    assert Doubled("abcd") == "#aabbcc";
  }

  /** Eight digits lose the two alpha digits. */
  lemma NormalizeHexOfLongAlpha()
    ensures NormalizeHex("#12345678") == Some("#123456")
  {
    HexLiteral("#12345678", "#12345678");
    assert "#12345678"[1..] == "12345678";
    assert "#12345678"[..7] == "#123456";
  }

  /** A literal without white space, and the lower-case form of it that `normalizeHex` reads. */
  lemma HexLiteral(raw: string, v: string)
    requires |raw| > 0 && raw[0] == '#' && |raw| == |v|
    requires forall i :: 0 <= i < |raw| ==> !IsSpace(raw[i]) && v[i] == LowerChar(raw[i])
    ensures Lower(Trim(raw)) == v && StartsWith(v, "#")
  {
    TrimmedIsFixed(raw);
    assert v[..1] == "#";
  }

  /** `getDisplayValue`: the trimmed value when it is not blank, else the trimmed placeholder. */
  function DisplayValue(value: string, placeholder: string): (r: string)
    ensures !Blank(value) ==> r == Trim(value)
    ensures Blank(value) ==> r == Trim(placeholder)
  {
    var v := Trim(value);
    if v != "" then v else Trim(placeholder)
  }

  /**
   * What `resolveDisplayColor` gives: the swatch colour ("" where the source has null, which
   * the swatch treats alike) and the hex for the native picker (never an empty string).
   */
  datatype Resolved = Resolved(swatch: string, hex: Option<string>)

  /**
   * `resolveDisplayColor`. `probe` stands for the browser's colour parser on the hidden probe
   * element: a string it accepts maps to the computed `background-color` it reports.
   */
  function ResolveDisplayColor(raw: string, probe: map<string, string>): (r: Resolved)
    ensures Blank(raw) ==> r == Resolved("", None)
    ensures r.hex.Some? ==> IsHex6(r.hex.value)
  {
    var t := Trim(raw);
    if t == "" then Resolved("", None)
    else
      var hex := NormalizeHex(t);
      if hex.Some? then Resolved(hex.value, hex)
      else if t !in probe then Resolved("", None)
      else
        var computed := probe[t];
        Resolved(computed, RgbToHex(computed))
  }

  lemma NormalizeHexOfTrim(raw: string)
    ensures NormalizeHex(Trim(raw)) == NormalizeHex(raw)
  {
    TrimIdempotent(raw);
  }

  /** A value written in hex form shows that colour on the swatch and in the picker. */
  lemma ResolveHexColor(raw: string, probe: map<string, string>)
    requires NormalizeHex(raw).Some?
    ensures ResolveDisplayColor(raw, probe) == Resolved(NormalizeHex(raw).value, NormalizeHex(raw))
  {
    NormalizeHexOfTrim(raw);
    assert Trim(raw) != "";
  }

  /** Any other value is resolved through the browser: its computed colour, converted to hex. */
  lemma ResolveThroughProbe(raw: string, probe: map<string, string>)
    requires !Blank(raw) && NormalizeHex(raw).None? && Trim(raw) in probe
    ensures var c := probe[Trim(raw)];
      ResolveDisplayColor(raw, probe) == Resolved(c, RgbToHex(c))
  {
    NormalizeHexOfTrim(raw);
  }

  /** A value the browser rejects resolves to nothing. */
  lemma ResolveRejected(raw: string, probe: map<string, string>)
    requires NormalizeHex(raw).None? && Trim(raw) !in probe
    ensures ResolveDisplayColor(raw, probe) == Resolved("", None)
  {
    NormalizeHexOfTrim(raw);
  }

  /** The state of one colour field. */
  datatype ColorState = ColorState(
    value: string,            // currentValue, also what the text input shows
    placeholder: string,      // currentPlaceholder
    disabled: bool,
    swatch: string,           // the swatch button's background colour, "" for none
    lastResolvedHex: string,
    nativeValue: string)      // the native picker's value

  /** The state after `updateSwatch`. */
  function Swatched(st: ColorState, probe: map<string, string>): (r: ColorState)
    ensures r.value == st.value && r.placeholder == st.placeholder && r.disabled == st.disabled
    ensures IsHex6(st.lastResolvedHex) ==> IsHex6(r.lastResolvedHex)
  {
    var res := ResolveDisplayColor(DisplayValue(st.value, st.placeholder), probe);
    ColorState(st.value, st.placeholder, st.disabled, res.swatch,
      if res.hex.Some? then res.hex.value else st.lastResolvedHex,
      if res.hex.Some? then res.hex.value else st.nativeValue)
  }

  /** `updateSwatch` keeps the last resolved hex unless the display value resolves to one. */
  lemma SwatchedKeepsHexUnlessResolved(st: ColorState, probe: map<string, string>)
    ensures var res := ResolveDisplayColor(DisplayValue(st.value, st.placeholder), probe);
      Swatched(st, probe).lastResolvedHex == if res.hex.Some? then res.hex.value else st.lastResolvedHex
  {
  }

  /** `setValue(v)`: the text shows `v` and the swatch follows it. */
  function ValueSet(st: ColorState, v: string, probe: map<string, string>): (r: ColorState)
    ensures r.value == v && r.placeholder == st.placeholder && r.disabled == st.disabled
    ensures IsHex6(st.lastResolvedHex) ==> IsHex6(r.lastResolvedHex)
  {
    Swatched(st.(value := v), probe)
  }

  /** `setPlaceholder(v)`: the placeholder becomes `v` and the swatch follows it. */
  function PlaceholderSet(st: ColorState, v: string, probe: map<string, string>): (r: ColorState)
    ensures r.value == st.value && r.placeholder == v && r.disabled == st.disabled
    ensures IsHex6(st.lastResolvedHex) ==> IsHex6(r.lastResolvedHex)
  {
    Swatched(st.(placeholder := v), probe)
  }

  /** A colour picked in the native picker: it becomes the value, and the swatch follows it. */
  function NativePicked(st: ColorState, v: string, probe: map<string, string>): (r: ColorState)
    ensures r.value == v && r.placeholder == st.placeholder && r.disabled == st.disabled
    ensures IsHex6(st.lastResolvedHex) ==> IsHex6(r.lastResolvedHex)
  {
    Swatched(st.(value := v, nativeValue := v), probe)
  }

  /** The hex the picker opens on: the resolved one, else the last one. */
  function PickerOpened(st: ColorState, probe: map<string, string>): (r: ColorState)
    ensures st.disabled ==> r == st
    ensures !st.disabled ==> r.nativeValue == r.lastResolvedHex
    ensures IsHex6(st.lastResolvedHex) ==> IsHex6(r.lastResolvedHex)
  {
    if st.disabled then st
    else
      var res := ResolveDisplayColor(DisplayValue(st.value, st.placeholder), probe);
      var h := if res.hex.Some? then res.hex.value else st.lastResolvedHex;
      st.(lastResolvedHex := h, nativeValue := h)
  }

  class ColorField {
    /** The browser's colour parser, as seen through the probe element. */
    const probe: map<string, string>
    var value: string
    var placeholder: string
    var disabled: bool
    var swatch: string
    var lastResolvedHex: string
    var nativeValue: string

    function State(): ColorState
      reads this
    {
      ColorState(value, placeholder, disabled, swatch, lastResolvedHex, nativeValue)
    }

    /** The last resolved hex is always a colour the native picker accepts. */
    ghost predicate Valid()
      reads this
    {
      IsHex6(lastResolvedHex)
    }

    constructor (probe: map<string, string>)
      ensures Valid() && this.probe == probe
      ensures State() == Swatched(ColorState("", "", false, "", DefaultColorHex, DefaultColorHex), probe)
    {
      this.probe := probe;
      value, placeholder, disabled := "", "", false;
      swatch, lastResolvedHex, nativeValue := "", DefaultColorHex, DefaultColorHex;
      new;
      UpdateSwatch();
    }

    /** `updateSwatch`. */
    method UpdateSwatch()
      requires Valid()
      modifies this
      ensures Valid()
      ensures State() == Swatched(old(State()), probe)
    {
      var res := ResolveDisplayColor(DisplayValue(value, placeholder), probe);
      swatch := res.swatch;
      if res.hex.Some? {
        lastResolvedHex := res.hex.value;
        nativeValue := res.hex.value;
      }
    }

    /** `setValue`: the text input shows `v`, and the swatch follows. */
    method SetValue(v: string)
      requires Valid()
      modifies this
      ensures Valid()
      ensures State() == ValueSet(old(State()), v, probe)
    {
      value := v;
      UpdateSwatch();
    }

    /** `setPlaceholder`: the placeholder becomes `v`, and the swatch follows. */
    method SetPlaceholder(v: string)
      requires Valid()
      modifies this
      ensures Valid()
      ensures State() == PlaceholderSet(old(State()), v, probe)
    {
      placeholder := v;
      UpdateSwatch();
    }

    /** `setDisabled`: the swatch, text input and picker are enabled or disabled together. */
    method SetDisabled(d: bool)
      modifies this
      ensures State() == old(State()).(disabled := d)
    {
      disabled := d;
    }

    /** A text `input` event: the typed text becomes the value; the callback gets it trimmed. */
    method OnTextInput(text: string) returns (emitted: string)
      requires Valid()
      modifies this
      ensures Valid()
      ensures State() == ValueSet(old(State()), text, probe)
      ensures emitted == Trim(text)
    {
      value := text;
      UpdateSwatch();
      emitted := Trim(value);
    }

    /** A native picker `input` event carrying the picked colour `v`; the callback gets `v`. */
    method OnNativeInput(v: string) returns (emitted: string)
      requires Valid()
      modifies this
      ensures Valid()
      ensures State() == NativePicked(old(State()), v, probe)
      ensures emitted == v
    {
      nativeValue := v;
      value := v;
      UpdateSwatch();
      emitted := value;
    }

    /** `openPicker`: the picker opens on the resolved hex, else on the last one. */
    method OpenPicker()
      requires Valid()
      modifies this`lastResolvedHex, this`nativeValue
      ensures Valid()
      ensures State() == PickerOpened(old(State()), probe)
    {
      if !disabled {
        var res := ResolveDisplayColor(DisplayValue(value, placeholder), probe);
        var h := if res.hex.Some? then res.hex.value else lastResolvedHex;
        lastResolvedHex, nativeValue := h, h;
      }
    }
  }
}
