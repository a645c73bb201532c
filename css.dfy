/**
 * The selector scanners of the CSS panel's class suggestions: undoing CSS identifier escapes
 * (a backslash followed by up to six hexadecimal digits and one optional white space
 * character, or by any other character taken literally, after section 4.3.7 of CSS Syntax
 * Level 3), finding where a class identifier ends, and collecting the class names of a
 * selector while skipping attribute selector bodies and quoted strings.
 *
 * Each scanner is a loop over string positions, proved equal to a recursive definition
 * that walks the same positions.
 */
module CssIdents {
  import opened Text
  import opened Wrappers

  /** The end of the run of hexadecimal digits that starts at `j` and stops at `lim` at the latest. */
  function HexEnd(s: string, j: nat, lim: nat): (r: nat)
    requires j <= |s|
    ensures j <= r <= |s| && (j <= lim ==> r <= lim)
    ensures r == |s| || r >= lim || !IsHexDigit(s[r])
    decreases |s| - j
  {
    if j >= lim || j == |s| || !IsHexDigit(s[j]) then j else HexEnd(s, j + 1, lim)
  }

  /** What `HexEnd` steps over is hexadecimal digits. */
  lemma {:induction false} HexEndDigits(s: string, j: nat, lim: nat)
    requires j <= |s|
    ensures forall k :: j <= k < HexEnd(s, j, lim) ==> IsHexDigit(s[k])
    decreases |s| - j
  {
    if !(j >= lim || j == |s| || !IsHexDigit(s[j])) {
      HexEndDigits(s, j + 1, lim);
    }
  }

  /** A run of digits reaching the limit is read whole. */
  lemma {:induction false} HexEndAll(s: string, j: nat, lim: nat)
    requires j <= lim <= |s|
    requires forall k :: j <= k < lim ==> IsHexDigit(s[k])
    ensures HexEnd(s, j, lim) == lim
    decreases lim - j
  {
    if j < lim {
      HexEndAll(s, j + 1, lim);
    }
  }

  /**
   * `String.fromCodePoint` for a code point of the Unicode range. A string here holds
   * Unicode scalar values, so the surrogate code points, which JavaScript keeps as lone
   * UTF-16 units, become U+FFFD.
   */
  function CodePointChar(cp: nat): (c: char)
    requires cp <= 0x10FFFF
    ensures !(0xD800 <= cp < 0xE000) ==> c as int == cp
  {
    if 0xD800 <= cp < 0xE000 then '\U{FFFD}' else cp as char
  }

  /**
   * The escape at a backslash that is not the last character: the text it stands for and
   * the position after it. One to six hexadecimal digits naming a code point of the Unicode
   * range give that code point and swallow one white space character after them; otherwise
   * the character after the digits, if any, is taken literally.
   */
  function EscapeStep(s: string, i: nat): (r: (string, nat))
    requires i < |s| - 1 && s[i] == '\\'
    ensures i < r.1 <= |s|
  {
    var j := HexEnd(s, i + 1, i + 7);
    HexEndDigits(s, i + 1, i + 7);
    assert AllHexDigits(s[i + 1..j]);
    if j > i + 1 && HexValue(s[i + 1..j]) <= 0x10FFFF then
      ([CodePointChar(HexValue(s[i + 1..j]))], if j < |s| && IsSpace(s[j]) then j + 1 else j)
    else if j < |s| then ([s[j]], j + 1)
    else ("", |s|)
  }

  /** The identifier text from position `i` on, with its escapes undone; a trailing backslash is dropped. */
  function UnescapeFrom(s: string, i: nat): (r: string)
    requires i <= |s|
    decreases |s| - i
  {
    if i == |s| then ""
    else if s[i] != '\\' then [s[i]] + UnescapeFrom(s, i + 1)
    else if i == |s| - 1 then ""
    else EscapeStep(s, i).0 + UnescapeFrom(s, EscapeStep(s, i).1)
  }

  /** `unescapeCssIdentifier`. */
  function Unescape(s: string): string {
    UnescapeFrom(s, 0)
  }

  /** `unescapeCssIdentifier` as the source computes it, one position at a time. */
  method UnescapeCssIdentifier(s: string) returns (out: string)
    ensures out == Unescape(s)
  {
    out := "";
    var i := 0;
    while i < |s|
      invariant i <= |s|
      invariant out + UnescapeFrom(s, i) == Unescape(s)
      decreases |s| - i
    {
      var ch := s[i];
      if ch != '\\' {
        assert UnescapeFrom(s, i) == [ch] + UnescapeFrom(s, i + 1);
        Associative(out, [ch], UnescapeFrom(s, i + 1));
        out := out + [ch];
        i := i + 1;
        continue;
      }
      if i >= |s| - 1 {
        assert UnescapeFrom(s, i) == "";
        break;
      }
      var piece, next := UnescapeEscapeAt(s, i);
      Associative(out, piece, UnescapeFrom(s, next));
      out := out + piece;
      i := next;
    }
  }

  /**
   * One escape of `unescapeCssIdentifier`, at a backslash that is not the last character:
   * the text it appends and the position after it.
   */
  method UnescapeEscapeAt(s: string, i: nat) returns (piece: string, next: nat)
    requires i < |s| - 1 && s[i] == '\\'
    ensures (piece, next) == EscapeStep(s, i)
  {
    var j, hex := CollectHex(s, i + 1);
    if |hex| > 0 {
      var cp := HexValue(hex);
      if cp <= 0x10FFFF {
        piece := [CodePointChar(cp)];
        if j < |s| && IsSpace(s[j]) {
          j := j + 1;
        }
        next := j;
        return;
      }
    }
    if j < |s| {
      piece, next := [s[j]], j + 1;
    } else {
      piece, next := "", |s|;
    }
  }

  /** At a backslash that is not the last character, the escape's text comes first. */
  lemma UnescapeBackslash(s: string, i: nat)
    requires i < |s| - 1 && s[i] == '\\'
    ensures UnescapeFrom(s, i) == EscapeStep(s, i).0 + UnescapeFrom(s, EscapeStep(s, i).1)
  {
  }

  /** A backslash and one to six hexadecimal digits naming a code point of the Unicode range. */
  lemma UnescapeCodePoint(s: string, i: nat, j: nat, hex: string)
    requires i < |s| - 1 && s[i] == '\\'
    requires j == HexEnd(s, i + 1, i + 7) && hex == s[i + 1..j] && AllHexDigits(hex)
    requires |hex| > 0 && HexValue(hex) <= 0x10FFFF
    ensures UnescapeFrom(s, i) ==
      [CodePointChar(HexValue(hex))] + UnescapeFrom(s, if j < |s| && IsSpace(s[j]) then j + 1 else j)
  {
    assert EscapeStep(s, i) == ([CodePointChar(HexValue(hex))], if j < |s| && IsSpace(s[j]) then j + 1 else j);
    UnescapeBackslash(s, i);
  }

  /** A backslash followed by no code point of the Unicode range: the character after the digits, if any. */
  lemma UnescapeCharAfter(s: string, i: nat, j: nat, hex: string)
    requires i < |s| - 1 && s[i] == '\\'
    requires j == HexEnd(s, i + 1, i + 7) && hex == s[i + 1..j] && AllHexDigits(hex)
    requires |hex| == 0 || HexValue(hex) > 0x10FFFF
    ensures j < |s| ==> UnescapeFrom(s, i) == [s[j]] + UnescapeFrom(s, j + 1)
    ensures j == |s| ==> UnescapeFrom(s, i) == ""
  {
    assert EscapeStep(s, i) == if j < |s| then ([s[j]], j + 1) else ("", |s|);
    UnescapeBackslash(s, i);
  }

  lemma Associative<T>(a: seq<T>, b: seq<T>, c: seq<T>)
    ensures (a + b) + c == a + (b + c)
  {
  }

  /** The inner loop of `unescapeCssIdentifier`: at most six hexadecimal digits from `from` on. */
  method CollectHex(s: string, from: nat) returns (j: nat, hex: string)
    requires from <= |s|
    ensures j == HexEnd(s, from, from + 6)
    ensures hex == s[from..j] && AllHexDigits(hex) && |hex| == j - from
  {
    j, hex := from, "";
    while j < |s| && |hex| < 6 && IsHexDigit(s[j])
      invariant from <= j <= |s| && j - from <= 6
      invariant hex == s[from..j] && AllHexDigits(hex)
      invariant HexEnd(s, j, from + 6) == HexEnd(s, from, from + 6)
      decreases |s| - j
    {
      hex := hex + [s[j]];
      j := j + 1;
    }
  }

  /** Text without a backslash is its own unescaping. */
  lemma {:induction false} UnescapePlain(s: string, i: nat)
    requires i <= |s|
    requires forall k :: i <= k < |s| ==> s[k] != '\\'
    ensures UnescapeFrom(s, i) == s[i..]
    decreases |s| - i
  {
    if i < |s| {
      UnescapePlain(s, i + 1);
      assert s[i..] == [s[i]] + s[i + 1..];
    }
  }

  lemma UnescapeWithoutBackslash(s: string)
    requires forall k :: 0 <= k < |s| ==> s[k] != '\\'
    ensures Unescape(s) == s
  {
    UnescapePlain(s, 0);
  }

  /** Text without a backslash is copied as it stands, up to the next backslash. */
  lemma {:induction false} UnescapePlainSpan(s: string, i: nat, j: nat)
    requires i <= j <= |s|
    requires forall k :: i <= k < j ==> s[k] != '\\'
    ensures UnescapeFrom(s, i) == s[i..j] + UnescapeFrom(s, j)
    decreases j - i
  {
    if i < j {
      UnescapePlainSpan(s, i + 1, j);
      assert s[i..j] == [s[i]] + s[i + 1..j];
      Associative([s[i]], s[i + 1..j], UnescapeFrom(s, j));
    }
  }

  /** A backslash before a character that is not a hexadecimal digit keeps that character. */
  lemma UnescapeEscapedChar(a: string, c: char, b: string)
    requires forall k :: 0 <= k < |a| ==> a[k] != '\\'
    requires forall k :: 0 <= k < |b| ==> b[k] != '\\'
    requires !IsHexDigit(c)
    ensures Unescape(a + ['\\', c] + b) == a + [c] + b
  {
    var s := a + ['\\', c] + b;
    UnescapePlainSpan(s, 0, |a|);
    assert s[0..|a|] == a;
    UnescapeLiteralStep(s, |a|);
    UnescapePlain(s, |a| + 2);
    assert s[|a| + 2..] == b;
  }

  /** The escaped colon of a Tailwind variant class. */
  lemma UnescapeTailwindExample()
    ensures Unescape("sm\\:bg-red-500") == "sm:bg-red-500"
  {
    TailwindPieces();
    UnescapeEscapedChar("sm", ':', "bg-red-500");
  }

  lemma TailwindPieces()
    ensures "sm" + ['\\', ':'] + "bg-red-500" == "sm\\:bg-red-500"
    ensures "sm" + [':'] + "bg-red-500" == "sm:bg-red-500"
  {
  }

  /** A hexadecimal escape names a code point and swallows the one space after it. */
  lemma UnescapeHexExample()
    ensures Unescape("\\31 23") == "123"
  {
    var s := "\\31 23";
    assert HexEnd(s, 1, 7) == 3;
    assert s[1..3] == "31";
    assert HexValue("31") == 0x31 by { assert "31"[..1] == "3"; }
    UnescapeCodePoint(s, 0, 3, "31");
    UnescapePlain(s, 4);
    assert s[4..] == "23";
  }

  /** A trailing backslash is dropped. */
  lemma UnescapeTrailingBackslash()
    ensures Unescape("a\\") == "a"
  {
  }

  /** Six digits beyond U+10FFFF: the digits are dropped and the character after them kept. */
  lemma UnescapeBeyondUnicode()
    ensures Unescape("\\110000x") == "x"
  {
    var t := "\\110000x";
    assert HexEnd(t, 1, 7) == 7;
    assert t[1..7] == "110000";
    assert HexValue("1") == 1;
    assert HexValue("11") == 0x11 by { assert "11"[..1] == "1"; }
    assert HexValue("110") == 0x110 by { assert "110"[..2] == "11"; }
    assert HexValue("1100") == 0x1100 by { assert "1100"[..3] == "110"; }
    assert HexValue("11000") == 0x11000 by { assert "11000"[..4] == "1100"; }
    assert HexValue("110000") == 0x110000 by { assert "110000"[..5] == "11000"; }
    UnescapeCharAfter(t, 0, 7, "110000");
  }

  function Pow16(w: nat): (p: nat)
    ensures p >= 1
  {
    if w == 0 then 1 else 16 * Pow16(w - 1)
  }

  /** The `w` lower-case hexadecimal digits of `v`, most significant first. */
  function HexDigits(v: nat, w: nat): (r: string)
    ensures |r| == w && AllHexDigits(r)
  {
    if w == 0 then "" else HexDigits(v / 16, w - 1) + [HexChar(v % 16)]
  }

  lemma {:induction false} HexDigitsValue(v: nat, w: nat)
    requires v < Pow16(w)
    ensures HexValue(HexDigits(v, w)) == v
  {
    if w > 0 {
      HexDigitsValue(v / 16, w - 1);
      var r := HexDigits(v, w);
      assert r[..|r| - 1] == HexDigits(v / 16, w - 1);
    }
  }

  /**
   * `t` written as an identifier in which every character of `coded`, and every hexadecimal
   * digit, is escaped by its six-digit code point, and every other character is escaped by
   * a backslash before it.
   */
  function Escape(t: string, coded: set<char>): (e: string)
  {
    if t == [] then ""
    else if t[0] in coded || IsHexDigit(t[0]) then ['\\'] + HexDigits(t[0] as int, 6) + Escape(t[1..], coded)
    else ['\\', t[0]] + Escape(t[1..], coded)
  }

  /** A six-digit escape of a code point, not followed by white space. */
  lemma UnescapeCodedStep(s: string, i: nat)
    requires i + 7 <= |s| && s[i] == '\\'
    requires forall k :: i + 1 <= k < i + 7 ==> IsHexDigit(s[k])
    requires HexValue(s[i + 1..i + 7]) <= 0x10FFFF
    requires i + 7 == |s| || !IsSpace(s[i + 7])
    ensures UnescapeFrom(s, i) == [CodePointChar(HexValue(s[i + 1..i + 7]))] + UnescapeFrom(s, i + 7)
  {
    HexEndAll(s, i + 1, i + 7);
  }

  /** A backslash before a character that is not a hexadecimal digit. */
  lemma UnescapeLiteralStep(s: string, i: nat)
    requires i + 2 <= |s| && s[i] == '\\' && !IsHexDigit(s[i + 1])
    ensures UnescapeFrom(s, i) == [s[i + 1]] + UnescapeFrom(s, i + 2)
  {
  }

  /** A character written by its code point comes back, and the rest of the text follows. */
  lemma UnescapeCodedHead(s: string, i: nat, t: string, coded: set<char>)
    requires i <= |s| && s[i..] == Escape(t, coded)
    requires t != [] && (t[0] in coded || IsHexDigit(t[0]))
    ensures i + 7 <= |s| && s[i + 7..] == Escape(t[1..], coded)
    ensures UnescapeFrom(s, i) == [t[0]] + UnescapeFrom(s, i + 7)
  {
    var c := t[0];
    var rest := Escape(t[1..], coded);
    var h := HexDigits(c as int, 6);
    assert s[i..] == ['\\'] + h + rest;
    assert s[i + 1..i + 7] == h;
    assert s[i + 7..] == rest;
    HexDigitsValue(c as int, 6);
    assert i + 7 < |s| ==> s[i + 7] == '\\' by {
      if i + 7 < |s| {
        assert t[1..] != [] && rest[0] == '\\';
      }
    }
    UnescapeCodedStep(s, i);
  }

  /** A character escaped by a backslash before it comes back, and the rest of the text follows. */
  lemma UnescapeLiteralHead(s: string, i: nat, t: string, coded: set<char>)
    requires i <= |s| && s[i..] == Escape(t, coded)
    requires t != [] && !(t[0] in coded || IsHexDigit(t[0]))
    ensures i + 2 <= |s| && s[i + 2..] == Escape(t[1..], coded)
    ensures UnescapeFrom(s, i) == [t[0]] + UnescapeFrom(s, i + 2)
  {
    var rest := Escape(t[1..], coded);
    assert s[i..] == ['\\', t[0]] + rest;
    assert s[i + 2..] == rest;
    UnescapeLiteralStep(s, i);
  }

  lemma {:induction false} UnescapeEscapeFrom(s: string, i: nat, t: string, coded: set<char>)
    requires i <= |s| && s[i..] == Escape(t, coded)
    ensures UnescapeFrom(s, i) == t
    decreases |t|
  {
    if t != [] {
      if t[0] in coded || IsHexDigit(t[0]) {
        UnescapeCodedHead(s, i, t, coded);
        UnescapeEscapeFrom(s, i + 7, t[1..], coded);
      } else {
        UnescapeLiteralHead(s, i, t, coded);
        UnescapeEscapeFrom(s, i + 2, t[1..], coded);
      }
      assert t == [t[0]] + t[1..];
    }
  }

  /** Escaping any text, whichever characters are written by code point, unescapes back to it. */
  lemma UnescapeEscape(t: string, coded: set<char>)
    ensures Unescape(Escape(t, coded)) == t
  {
    UnescapeEscapeFrom(Escape(t, coded), 0, t, coded);
  }

  /** The characters that end a class identifier in a selector. */
  predicate Terminator(c: char) {
    IsSpace(c) || c == '.' || c == '#' || c == ':' || c == '[' || c == ']' || c == '('
    || c == ')' || c == ',' || c == '>' || c == '+' || c == '~' || c == '|'
  }

  /** `consumeClassIdent`: where the identifier starting at `i` ends, at a terminator or at the end. */
  function IdentEnd(s: string, i: nat): (r: nat)
    ensures r <= |s| && (i <= |s| ==> i <= r)
    ensures r < |s| ==> Terminator(s[r])
    decreases |s| - i
  {
    if i >= |s| then |s|
    else if s[i] == '\\' then
      if i + 1 >= |s| then |s|
      else if IsHexDigit(s[i + 1]) then
        var j := HexEnd(s, i + 1, i + 7);
        IdentEnd(s, if j < |s| && IsSpace(s[j]) then j + 1 else j)
      else IdentEnd(s, i + 2)
    else if Terminator(s[i]) then i
    else IdentEnd(s, i + 1)
  }

  /**
   * Every terminator inside an identifier is escaped: it follows a backslash, or it is the
   * white space closing a hexadecimal escape.
   */
  lemma {:induction false} IdentEndEscaped(s: string, i: nat, k: nat)
    requires i <= k < IdentEnd(s, i) && Terminator(s[k])
    ensures i < k && (s[k - 1] == '\\' || (IsSpace(s[k]) && IsHexDigit(s[k - 1])))
    decreases |s| - i
  {
    if s[i] == '\\' {
      if IsHexDigit(s[i + 1]) {
        var j := HexEnd(s, i + 1, i + 7);
        var n := if j < |s| && IsSpace(s[j]) then j + 1 else j;
        HexEndDigits(s, i + 1, i + 7);
        if k >= n {
          IdentEndEscaped(s, n, k);
        }
      } else if k >= i + 2 {
        IdentEndEscaped(s, i + 2, k);
      }
    } else {
      IdentEndEscaped(s, i + 1, k);
    }
  }

  /** `consumeClassIdent` as the source computes it. */
  method ConsumeClassIdent(s: string, start: nat) returns (r: nat)
    ensures r == IdentEnd(s, start)
  {
    var i := start;
    while i < |s|
      invariant IdentEnd(s, i) == IdentEnd(s, start)
      decreases |s| - i
    {
      var ch := s[i];
      if ch == '\\' {
        var next := i + 1;
        if next >= |s| {
          return |s|;
        }
        if IsHexDigit(s[next]) {
          var j := next;
          var hexCount := 0;
          while j < |s| && hexCount < 6 && IsHexDigit(s[j])
            invariant next <= j <= |s| && hexCount == j - next <= 6
            invariant HexEnd(s, j, next + 6) == HexEnd(s, next, next + 6)
            decreases |s| - j
          {
            j := j + 1;
            hexCount := hexCount + 1;
          }
          if j < |s| && IsSpace(s[j]) {
            j := j + 1;
          }
          i := j;
        } else {
          i := next + 1;
        }
        continue;
      }
      if Terminator(ch) {
        return i;
      }
      i := i + 1;
    }
    return |s|;
  }

  /** Where the scan of a selector stands: the position, the open attribute brackets, the open quote. */
  datatype Scan = Scan(i: nat, depth: nat, quote: Option<char>)

  /**
   * One step of the scan at a position inside the selector: the class name it finds, if
   * any, and where the scan stands after it. Inside a quoted string a backslash skips the
   * next character and the opening quote closes it; a bracket opens or closes an attribute
   * selector; a dot outside both starts a class name, which runs to the end of its identifier.
   */
  function ScanStep(s: string, st: Scan): (r: (seq<string>, Scan))
    requires st.i < |s|
    ensures r.1.i > st.i
    ensures r.0 == [] || (|r.0| == 1 && r.0[0] != "" && Trimmed(r.0[0]))
  {
    var i, ch := st.i, s[st.i];
    if st.quote.Some? then
      if ch == '\\' then ([], st.(i := i + 2))
      else if ch == st.quote.value then ([], Scan(i + 1, st.depth, None))
      else ([], st.(i := i + 1))
    else if ch == '"' || ch == '\'' then ([], Scan(i + 1, st.depth, Some(ch)))
    else if ch == '[' then ([], Scan(i + 1, st.depth + 1, None))
    else if ch == ']' then ([], Scan(i + 1, if st.depth > 0 then st.depth - 1 else 0, None))
    else if st.depth > 0 || ch != '.' || i + 1 >= |s| then ([], st.(i := i + 1))
    else
      var end := IdentEnd(s, i + 1);
      var cls := Trim(Unescape(s[i + 1..end]));
      (if cls != "" then [cls] else [], Scan(end, st.depth, None))
  }

  /** The class names the scan finds from `st` to the end of the selector. */
  function ClassNamesFrom(s: string, st: Scan): (r: seq<string>)
    decreases |s| - st.i
  {
    if st.i >= |s| then []
    else
      var step := ScanStep(s, st);
      step.0 + ClassNamesFrom(s, step.1)
  }

  /** Every name found is non-empty and trimmed. */
  lemma {:induction false} ClassNamesTrimmed(s: string, st: Scan)
    ensures forall k :: 0 <= k < |ClassNamesFrom(s, st)| ==>
      ClassNamesFrom(s, st)[k] != "" && Trimmed(ClassNamesFrom(s, st)[k])
    decreases |s| - st.i
  {
    if st.i < |s| {
      ClassNamesTrimmed(s, ScanStep(s, st).1);
    }
  }

  /** `extractClassNamesFromSelector`: the names of a whole selector, each non-empty and trimmed. */
  function ClassNames(s: string): (r: seq<string>)
    ensures forall k :: 0 <= k < |r| ==> r[k] != "" && Trimmed(r[k])
  {
    ClassNamesTrimmed(s, Scan(0, 0, None));
    ClassNamesFrom(s, Scan(0, 0, None))
  }

  /** `extractClassNamesFromSelector` as the source computes it. */
  method ExtractClassNamesFromSelector(s: string) returns (out: seq<string>)
    ensures out == ClassNames(s)
  {
    out := [];
    var depth: nat := 0;
    var quote: Option<char> := None;
    var i: nat := 0;
    while i < |s|
      invariant out + ClassNamesFrom(s, Scan(i, depth, quote)) == ClassNames(s)
      decreases |s| - i
    {
      var found, next := ScanAt(s, i, depth, quote);
      Associative(out, found, ClassNamesFrom(s, next));
      out := out + found;
      i, depth, quote := next.i, next.depth, next.quote;
    }
  }

  /** One pass of the loop of `extractClassNamesFromSelector`, at position `i`. */
  method ScanAt(s: string, i: nat, depth: nat, quote: Option<char>) returns (found: seq<string>, next: Scan)
    requires i < |s|
    ensures (found, next) == ScanStep(s, Scan(i, depth, quote))
  {
    var ch := s[i];
    found := [];
    if quote.Some? {
      if ch == '\\' {
        return found, Scan(i + 2, depth, quote);
      }
      if ch == quote.value {
        return found, Scan(i + 1, depth, None);
      }
      return found, Scan(i + 1, depth, quote);
    }
    if ch == '"' || ch == '\'' {
      return found, Scan(i + 1, depth, Some(ch));
    }
    if ch == '[' {
      return found, Scan(i + 1, depth + 1, None);
    }
    if ch == ']' {
      return found, Scan(i + 1, if depth > 0 then depth - 1 else 0, None);
    }
    if depth > 0 || ch != '.' || i + 1 >= |s| {
      return found, Scan(i + 1, depth, None);
    }
    var cls, end := ReadClass(s, i + 1);
    if cls != "" {
      found := [cls];
    }
    next := Scan(end, depth, None);
  }

  /** The class selector body starting at `start`: its unescaped, trimmed name and where it ends. */
  method ReadClass(s: string, start: nat) returns (cls: string, end: nat)
    requires start <= |s|
    ensures end == IdentEnd(s, start)
    ensures cls == Trim(Unescape(s[start..end]))
  {
    end := ConsumeClassIdent(s, start);
    var raw := s[start..end];
    var name := UnescapeCssIdentifier(raw);
    cls := Trim(name);
  }

  /** Nothing inside an attribute selector body, dots included, is taken for a class name. */
  lemma {:induction false} BracketBodyIgnored(s: string, i: nat, j: nat, depth: nat)
    requires i <= j <= |s| && depth > 0
    requires forall k :: i <= k < j ==> s[k] != '[' && s[k] != ']' && s[k] != '"' && s[k] != '\''
    ensures ClassNamesFrom(s, Scan(i, depth, None)) == ClassNamesFrom(s, Scan(j, depth, None))
    decreases j - i
  {
    if i < j {
      assert ScanStep(s, Scan(i, depth, None)) == ([], Scan(i + 1, depth, None));
      BracketBodyIgnored(s, i + 1, j, depth);
    }
  }

  /** Nothing inside a quoted string, dots included, is taken for a class name. */
  lemma {:induction false} QuotedIgnored(s: string, i: nat, j: nat, depth: nat, q: char)
    requires i <= j <= |s|
    requires forall k :: i <= k < j ==> s[k] != q && s[k] != '\\'
    ensures ClassNamesFrom(s, Scan(i, depth, Some(q))) == ClassNamesFrom(s, Scan(j, depth, Some(q)))
    decreases j - i
  {
    if i < j {
      assert ScanStep(s, Scan(i, depth, Some(q))) == ([], Scan(i + 1, depth, Some(q)));
      QuotedIgnored(s, i + 1, j, depth, q);
    }
  }

  /** An identifier runs on over characters that are neither backslashes nor terminators. */
  lemma {:induction false} IdentEndPlain(s: string, i: nat, j: nat)
    requires i <= j <= |s|
    requires forall k :: i <= k < j ==> s[k] != '\\' && !Terminator(s[k])
    ensures IdentEnd(s, i) == IdentEnd(s, j)
    decreases j - i
  {
    if i < j {
      IdentEndPlain(s, i + 1, j);
    }
  }

  /** A dot outside brackets and quotes starts a class name, which runs to the end of its identifier. */
  lemma ClassStep(s: string, i: nat, end: nat, name: string)
    requires i + 1 < |s| && s[i] == '.' && IdentEnd(s, i + 1) == end
    requires Trim(Unescape(s[i + 1..end])) == name && name != ""
    ensures ScanStep(s, Scan(i, 0, None)) == ([name], Scan(end, 0, None))
  {
    var ch := s[i];
    assert !(ch == '"' || ch == '\'' || ch == '[' || ch == ']');
    var cls := Trim(Unescape(s[i + 1..end]));
    assert ScanStep(s, Scan(i, 0, None)) == (if cls != "" then [cls] else [], Scan(end, 0, None));
  }

  /** The name of a class selector is found, and the scan goes on after its identifier. */
  lemma ClassFound(s: string, i: nat, end: nat, name: string)
    requires i + 1 < |s| && s[i] == '.' && IdentEnd(s, i + 1) == end
    requires Trim(Unescape(s[i + 1..end])) == name && name != ""
    ensures ClassNamesFrom(s, Scan(i, 0, None)) == [name] + ClassNamesFrom(s, Scan(end, 0, None))
  {
    ClassStep(s, i, end, name);
  }

  /** `s` holds the text `t` from position `i` on. */
  predicate Spells(s: string, i: nat, t: string) {
    i + |t| <= |s| && forall k :: i <= k < i + |t| ==> s[k] == t[k - i]
  }

  /** An escaped Tailwind class, a plain class, and a dotted value quoted inside an attribute selector. */
  const ExampleSelector: string := ".sm\\:bg-red-500.foo[data-x=\".bar\"]"

  lemma ExampleSpelled()
    ensures |ExampleSelector| == 34
    ensures Spells(ExampleSelector, 0, ".sm\\:bg-red-500.foo[")
    ensures Spells(ExampleSelector, 19, "[data-x=\".bar\"]")
  {
    ExampleSpelledHead();
    ExampleSpelledTail();
  }

  lemma ExampleSpelledHead()
    ensures Spells(ExampleSelector, 0, ".sm\\:bg-red-500.foo[")
  {
  }

  lemma ExampleSpelledTail()
    ensures Spells(ExampleSelector, 19, "[data-x=\".bar\"]")
  {
  }

  /** The quoted value `".bar"` and the closing bracket yield no class name. */
  lemma ExampleQuoted(s: string)
    requires |s| == 34 && Spells(s, 19, "[data-x=\".bar\"]")
    ensures ClassNamesFrom(s, Scan(27, 1, None)) == []
  {
    assert ClassNamesFrom(s, Scan(32, 1, Some('"'))) == [] by {
      assert ClassNamesFrom(s, Scan(33, 1, None)) == [];
    }
    QuotedIgnored(s, 28, 32, 1, '"');
  }

  /** The attribute selector `[data-x=".bar"]` yields no class name. */
  lemma ExampleAttribute(s: string)
    requires |s| == 34 && Spells(s, 19, "[data-x=\".bar\"]")
    ensures ClassNamesFrom(s, Scan(19, 0, None)) == []
  {
    ExampleQuoted(s);
    BracketBodyIgnored(s, 20, 27, 1);
  }

  /** The identifier `foo` ends at the bracket. */
  lemma ExamplePlainIdent(s: string)
    requires Spells(s, 0, ".sm\\:bg-red-500.foo[")
    ensures IdentEnd(s, 16) == 19 && s[16..19] == "foo"
  {
    IdentEndPlain(s, 16, 19);
  }

  lemma ExampleNames()
    ensures Trim(Unescape("foo")) == "foo"
    ensures Trim(Unescape("sm\\:bg-red-500")) == "sm:bg-red-500"
  {
    UnescapeWithoutBackslash("foo");
    TrimmedIsFixed("foo");
    UnescapeTailwindExample();
    TrimmedIsFixed("sm:bg-red-500");
  }

  /** The escaped colon does not end the first identifier; the next dot does. */
  lemma ExampleEscapedIdent(s: string)
    requires Spells(s, 0, ".sm\\:bg-red-500.foo[")
    ensures IdentEnd(s, 1) == 15
  {
    ExampleIdentTail(s);
    IdentEndPlain(s, 1, 3);
  }

  lemma ExampleIdentTail(s: string)
    requires Spells(s, 0, ".sm\\:bg-red-500.foo[")
    ensures IdentEnd(s, 5) == 15
  {
    IdentEndPlain(s, 5, 15);
  }

  lemma ExampleEscapedText(s: string)
    requires Spells(s, 0, ".sm\\:bg-red-500.foo[")
    ensures s[1..15] == "sm\\:bg-red-500"
  {
  }

  lemma ExampleFirstName(s: string)
    requires 15 <= |s| && s[1..15] == "sm\\:bg-red-500"
    ensures Trim(Unescape(s[1..15])) == "sm:bg-red-500"
  {
    ExampleNames();
  }

  lemma ExampleSecondName(s: string)
    requires 19 <= |s| && s[16..19] == "foo"
    ensures Trim(Unescape(s[16..19])) == "foo"
  {
    ExampleNames();
  }

  /** Two class names, then nothing. */
  lemma ExampleChain(s: string, a: string, b: string)
    requires 19 < |s| && s[0] == '.' && s[15] == '.'
    requires IdentEnd(s, 1) == 15 && Trim(Unescape(s[1..15])) == a && a != ""
    requires IdentEnd(s, 16) == 19 && Trim(Unescape(s[16..19])) == b && b != ""
    requires ClassNamesFrom(s, Scan(19, 0, None)) == []
    ensures ClassNamesFrom(s, Scan(0, 0, None)) == [a, b]
  {
    ClassFound(s, 15, 19, b);
    ClassFound(s, 0, 15, a);
  }

  /** The two class selectors before the attribute selector. */
  lemma ExampleHead(s: string)
    requires Spells(s, 0, ".sm\\:bg-red-500.foo[")
    ensures 19 < |s| && s[0] == '.' && s[15] == '.'
    ensures IdentEnd(s, 1) == 15 && Trim(Unescape(s[1..15])) == "sm:bg-red-500"
    ensures IdentEnd(s, 16) == 19 && Trim(Unescape(s[16..19])) == "foo"
  {
    ExamplePlainIdent(s);
    ExampleEscapedIdent(s);
    ExampleEscapedText(s);
    ExampleFirstName(s);
    ExampleSecondName(s);
  }

  lemma ExampleScan(s: string)
    requires |s| == 34
    requires Spells(s, 0, ".sm\\:bg-red-500.foo[") && Spells(s, 19, "[data-x=\".bar\"]")
    ensures ClassNamesFrom(s, Scan(0, 0, None)) == ["sm:bg-red-500", "foo"]
  {
    ExampleHead(s);
    ExampleAttribute(s);
    ExampleChain(s, "sm:bg-red-500", "foo");
  }

  /** The names of the example selector are exactly its two class names, unescaped. */
  lemma ClassNamesExample()
    ensures ClassNames(ExampleSelector) == ["sm:bg-red-500", "foo"]
  {
    ExampleSpelled();
    ExampleScan(ExampleSelector);
  }
}
