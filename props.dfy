/**
 * The helpers of the props panel: the denylist of prop keys, the numeric input grammar, the
 * merge of bridge responses, the capability gates, the status line, the read-only display of
 * a serialized value, the option list of an enum prop and the local update after a write.
 */
module Props {
  import opened Text
  import opened Wrappers
  import opened Numbers
  import opened ClassLists

  /** JavaScript truthiness of an optional string: present and not empty. */
  predicate Truthy(s: Option<string>) { s.Some? && s.value != "" }

  /** The keys whose writes could reach the prototype machinery of the props object. */
  const DangerousKeys: set<string> := {
    "__proto__", "constructor", "prototype",
    "__defineGetter__", "__defineSetter__", "__lookupGetter__", "__lookupSetter__"
  }

  /** `isDangerousPropKey`: the trimmed key is one of the denied keys. */
  predicate IsDangerousPropKey(key: string) {
    Trim(key) in DangerousKeys
  }

  /** White space around a key never changes the verdict. */
  lemma DangerousKeyTrimmed(key: string)
    ensures IsDangerousPropKey(key) <==> IsDangerousPropKey(Trim(key))
  {
    TrimIdempotent(key);
  }

  /** A denied key is caught with white space around it; a key that merely contains one is not. */
  lemma DangerousKeyExamples()
    ensures IsDangerousPropKey("__proto__")
    ensures !IsDangerousPropKey("proto")
    ensures !IsDangerousPropKey("Constructor")
  {
    TrimmedIsFixed("__proto__");
    TrimmedIsFixed("proto");
    TrimmedIsFixed("Constructor");
  }

  // ---------------------------------------------------------------------------------------
  // Numeric input
  // ---------------------------------------------------------------------------------------

  /**
   * `parseNumberInput`: blank input is refused; "-?digits." reads as the integer before the
   * point; "-?(digits | digits*.digits)" reads as that number; anything else is refused.
   */
  function ParseNumberInput(raw: string): Option<Dec> {
    var t := Trim(raw);
    if t == "" then None
    else if IsTrailingDotLiteral(t) then Some(LiteralValue(t))
    else if IsDecimalLiteral(t) then Some(LiteralValue(t))
    else None
  }

  /** What `ParseNumberInput` accepts: an input that is not blank and is a number literal. */
  lemma ParseNumberInputSound(raw: string)
    ensures var t := Trim(raw);
      && (Blank(raw) ==> ParseNumberInput(raw).None?)
      && (ParseNumberInput(raw).Some? <==> IsTrailingDotLiteral(t) || IsDecimalLiteral(t))
  {
  }

  /** The integer a literal such as "-10." writes before its point. */
  function IntegerPart(t: string): (d: Dec)
    requires IsTrailingDotLiteral(t)
    ensures d.scale == 0
  {
    var m: int := DigitsValue(Unsigned(t[..|t| - 1]));
    Dec(if Negative(t) then -m else m, 0)
  }

  /** An input ending in a point, such as "10.", stands for the integer before the point. */
  lemma ParseTrailingDot(raw: string)
    requires IsTrailingDotLiteral(Trim(raw))
    ensures ParseNumberInput(raw) == Some(IntegerPart(Trim(raw)))
  {
    ParseNumberLiteral(raw);
    TrailingDotValue(Trim(raw));
  }

  lemma ParseNumberLiteral(raw: string)
    requires IsTrailingDotLiteral(Trim(raw))
    ensures ParseNumberInput(raw) == Some(LiteralValue(Trim(raw)))
  {
  }

  lemma TrailingDotValue(t: string)
    requires IsTrailingDotLiteral(t)
    ensures LiteralValue(t) == IntegerPart(t)
  {
    TrailingDotShape(t);
    var u := Unsigned(t);
    assert u[..|u| - 1] == Unsigned(t[..|t| - 1]);
  }

  /**
   * The text `String(n)` gives a finite number, typed back into a number input, reads as
   * that number: exactly its normal form, so with the same value.
   */
  lemma FormatDecReadsBack(d: Dec)
    ensures ParseNumberInput(FormatDec(d)) == Some(Normalize(d))
    ensures Value(ParseNumberInput(FormatDec(d)).value) == Value(d)
  {
    var neg, ip, fp := FormatDecShape(d);
    assert FormatDec(d) == SignedParts(neg, ip, fp);
    LiteralOfParts(neg, ip, fp);
  }

  /** The digits of a number literal: integer digits, then a point and fraction digits when there are any. */
  function UnsignedParts(ip: string, fp: string): string {
    ip + (if fp == [] then "" else "." + fp)
  }

  /** The literal with an optional minus sign. */
  function SignedParts(neg: bool, ip: string, fp: string): string {
    (if neg then "-" else "") + UnsignedParts(ip, fp)
  }

  /** A sign, integer digits and optional fraction digits form a literal that reads as their number. */
  lemma LiteralOfParts(neg: bool, ip: string, fp: string)
    requires ip != [] && AllDigits(ip) && AllDigits(fp)
    ensures ParseNumberInput(SignedParts(neg, ip, fp)) == Some(DecOf(neg, ip, fp))
  {
    var t := SignedParts(neg, ip, fp);
    SignOfParts(neg, ip, fp);
    PartsShape(ip, fp);
    ParseOfDecimal(t);
  }

  lemma SignOfParts(neg: bool, ip: string, fp: string)
    requires ip != [] && AllDigits(ip) && AllDigits(fp)
    ensures var t := SignedParts(neg, ip, fp); var u := UnsignedParts(ip, fp);
      Unsigned(t) == u && Negative(t) == neg && t[|t| - 1] == u[|u| - 1] && Trimmed(t)
  {
    var t := SignedParts(neg, ip, fp);
    var u := UnsignedParts(ip, fp);
    PartsShape(ip, fp);
    if neg {
      assert t == "-" + u;
      assert t[1..] == u;
    } else {
      assert t == u;
    }
  }

  /** A trimmed decimal literal without a trailing point reads as its value. */
  lemma ParseOfDecimal(t: string)
    requires Trimmed(t) && IsDecimalLiteral(t) && !IsTrailingDotLiteral(t)
    ensures ParseNumberInput(t) == Some(LiteralValue(t))
  {
    TrimmedIsFixed(t);
  }

  lemma PartsShape(ip: string, fp: string)
    requires ip != [] && AllDigits(ip) && AllDigits(fp)
    ensures var u := UnsignedParts(ip, fp);
      && IsDigit(u[0]) && IsDigit(u[|u| - 1])
      && IndexOf(u, '.') == |ip| && u[..|ip|] == ip
      && (fp != [] ==> |ip| + 1 < |u| && u[|ip| + 1..] == fp)
      && (fp == [] ==> |u| == |ip|)
      && IsDecimalLiteral(u) && !IsTrailingDotLiteral(u)
  {
    var u := UnsignedParts(ip, fp);
    assert u[0] == ip[0];
    assert u[..|ip|] == ip;
    if fp != [] {
      assert u[|ip|] == '.';
      assert u[|ip| + 1..] == fp;
      assert u[|u| - 1] == fp[|fp| - 1];
    } else {
      assert u == ip;
    }
    assert IndexOf(u, '.') == |ip|;
  }

  // ---------------------------------------------------------------------------------------
  // Responses
  // ---------------------------------------------------------------------------------------

  /** The capabilities the bridge reports for the selected component. */
  datatype Caps = Caps(canRead: bool, canWrite: bool)

  /** `SerializedValue`: how the bridge describes a prop value it cannot hand over as is. */
  datatype Serialized =
    | SNull
    | SUndefined
    | SBoolean(flag: bool)
    | SNumber(special: Option<string>, num: Option<Dec>)
    | SString(str: string, truncated: bool)
    | SBigint(digits: string)
    | SSymbol(description: string)
    | SFunction(fnName: Option<string>)
    | SReactElement(display: string)
    | SDomElement(tagName: Option<string>, id: Option<string>, className: Option<string>)
    | SDate(iso: string)
    | SRegexp(source: string, flags: string)
    | SError(errName: string, message: string)
    | SCircular(refId: nat)
    | SMaxDepth(preview: string)
    | SArray(length: nat)
    | SObject(ctorName: Option<string>)
    | SMap(mapSize: nat)
    | SSet(setSize: nat)
    | SUnknown(preview: string)
    | SOther(kind: Option<string>)

  /** `SerializedPropEntry`; `enumValues` holds None for an enum value that is not a string. */
  datatype Entry = Entry(key: string, value: Serialized, editable: bool, enumValues: seq<Option<string>>)

  datatype PropList = PropList(entries: seq<Entry>, truncated: bool)

  /** `PropsResponseData`: every field may be missing from a response. */
  datatype Data = Data(
    framework: Option<string>,
    componentName: Option<string>,
    hookStatus: Option<string>,
    needsRefresh: Option<bool>,
    capabilities: Option<Caps>,
    props: Option<PropList>,
    meta: Option<map<string, string>>)

  /** `next ?? prev`, and the field of a later spread that overrides an earlier one. */
  function Either<T>(next: Option<T>, prev: Option<T>): (r: Option<T>)
    ensures r.Some? <==> next.Some? || prev.Some?
    ensures next.Some? ==> r == next
    ensures next.None? ==> r == prev
  {
    if next.Some? then next else prev
  }

  function MetaOf(d: Data): map<string, string> {
    if d.meta.Some? then d.meta.value else map[]
  }

  /**
   * `mergeResponseData`: a missing response keeps what is known, a first response is taken as
   * is, and otherwise every field the later response carries wins, `meta` key by key.
   */
  function MergeResponseData(prev: Option<Data>, next: Option<Data>): Option<Data> {
    if next.None? then prev
    else if prev.None? then next
    else
      var p, n := prev.value, next.value;
      Some(Data(
        Either(n.framework, p.framework),
        Either(n.componentName, p.componentName),
        Either(n.hookStatus, p.hookStatus),
        Either(n.needsRefresh, p.needsRefresh),
        Either(n.capabilities, p.capabilities),
        Either(n.props, p.props),
        Some(MetaOf(p) + MetaOf(n))))
  }

  /** The later response wins field by field, and in `meta` key by key. */
  lemma MergeResponseDataSound(prev: Option<Data>, next: Option<Data>)
    ensures next.None? ==> MergeResponseData(prev, next) == prev
    ensures prev.None? ==> MergeResponseData(prev, next) == next
    ensures prev.Some? && next.Some? ==>
      var r := MergeResponseData(prev, next).value;
      && r.capabilities == (if next.value.capabilities.Some? then next.value.capabilities else prev.value.capabilities)
      && r.props == (if next.value.props.Some? then next.value.props else prev.value.props)
      && r.needsRefresh == (if next.value.needsRefresh.Some? then next.value.needsRefresh else prev.value.needsRefresh)
      && r.meta.Some?
      && (forall k :: k in r.meta.value <==> k in MetaOf(prev.value) || k in MetaOf(next.value))
      && (forall k :: k in MetaOf(next.value) ==> r.meta.value[k] == MetaOf(next.value)[k])
      && (forall k :: k in MetaOf(prev.value) && k !in MetaOf(next.value) ==> r.meta.value[k] == MetaOf(prev.value)[k])
  {
  }

  /** Merging three responses gives the same data however the merges are grouped. */
  lemma MergeResponseDataAssociative(a: Option<Data>, b: Option<Data>, c: Option<Data>)
    ensures MergeResponseData(MergeResponseData(a, b), c) == MergeResponseData(a, MergeResponseData(b, c))
  {
    if a.Some? && b.Some? && c.Some? {
      var x, y, z := MetaOf(a.value), MetaOf(b.value), MetaOf(c.value);
      assert (x + y) + z == x + (y + z);
    }
  }

  /** `getCanWrite`: the component may be written, and no page refresh is pending. */
  predicate GetCanWrite(data: Option<Data>) {
    && data.Some?
    && data.value.capabilities.Some?
    && data.value.capabilities.value.canWrite
    && data.value.needsRefresh != Some(true)
  }

  /** `getCanRead`. */
  predicate GetCanRead(data: Option<Data>) {
    data.Some? && data.value.capabilities.Some? && data.value.capabilities.value.canRead
  }

  /** A response that says nothing of capabilities or refreshing leaves both gates as they were. */
  lemma MergeKeepsGates(prev: Option<Data>, next: Data)
    requires prev.Some? && next.capabilities.None? && next.needsRefresh.None?
    ensures GetCanWrite(MergeResponseData(prev, Some(next))) == GetCanWrite(prev)
    ensures GetCanRead(MergeResponseData(prev, Some(next))) == GetCanRead(prev)
  {
  }

  // ---------------------------------------------------------------------------------------
  // Status line
  // ---------------------------------------------------------------------------------------

  /** `formatHookStatus`. */
  function HookText(h: Option<string>): string {
    if Truthy(h) then h.value else ""
  }

  function YesNo(b: bool): string { if b then "yes" else "no" }

  /** The two capability parts of the status line. */
  function CapsParts(caps: Option<Caps>): seq<string> {
    if caps.Some? then ["read: " + YesNo(caps.value.canRead), "write: " + YesNo(caps.value.canWrite)]
    else ["read: unknown", "write: unknown"]
  }

  /** A part that is pushed only when its condition holds. */
  function Flag(on: bool, word: string): seq<string> {
    if on then [word] else []
  }

  /** The parts `buildStatusLine` joins once data has arrived. */
  function StatusParts(data: Data, error: Option<string>): seq<string> {
    var hook := HookText(data.hookStatus);
    CapsParts(data.capabilities) + Flag(hook != "", "hook: " + hook)
      + Flag(data.needsRefresh == Some(true), "needs refresh") + Flag(Truthy(error), "error")
  }

  /** `buildStatusLine`. */
  function BuildStatusLine(loading: bool, data: Option<Data>, error: Option<string>): string {
    if loading then "Loading…"
    else if data.None? then (if Truthy(error) then "Error • " + error.value else "Waiting for selection…")
    else Join(StatusParts(data.value, error), " • ")
  }

  /**
   * The status line names the read and write capabilities first, then the hook status when
   * there is one.
   */
  lemma StatusPartsOrder(data: Data, error: Option<string>)
    ensures var parts := StatusParts(data, error);
      && |parts| == 2 + (if Truthy(data.hookStatus) then 1 else 0)
           + (if data.needsRefresh == Some(true) then 1 else 0) + (if Truthy(error) then 1 else 0)
      && parts[0] == (if data.capabilities.Some? then "read: " + YesNo(data.capabilities.value.canRead) else "read: unknown")
      && parts[1] == (if data.capabilities.Some? then "write: " + YesNo(data.capabilities.value.canWrite) else "write: unknown")
      && (Truthy(data.hookStatus) ==> parts[2] == "hook: " + data.hookStatus.value)
  {
  }

  /** The status line says "needs refresh" exactly when a refresh is pending, and "error" exactly when there is an error. */
  lemma StatusPartsFlags(data: Data, error: Option<string>)
    ensures var parts := StatusParts(data, error);
      && ("needs refresh" in parts <==> data.needsRefresh == Some(true))
      && ("error" in parts <==> Truthy(error))
  {
    var hook := HookText(data.hookStatus);
    var caps := CapsParts(data.capabilities);
    var hs := Flag(hook != "", "hook: " + hook);
    forall x | x in caps ensures x[0] == 'r' || x[0] == 'w' {
    }
    assert forall x :: x in hs ==> x[0] == 'h';
    assert "needs refresh"[0] == 'n' && "error"[0] == 'e';
  }

  // ---------------------------------------------------------------------------------------
  // Display of a serialized value
  // ---------------------------------------------------------------------------------------

  /** `JSON.stringify` of one character of a string. */
  function JsonEscapeChar(c: char): string {
    if c == '"' then "\\\""
    else if c == '\\' then "\\\\"
    else if c == '\n' then "\\n"
    else if c == '\r' then "\\r"
    else if c == '\t' then "\\t"
    else if c as int == 8 then "\\b"
    else if c as int == 12 then "\\f"
    else if (c as int) < 0x20 then "\\u00" + [HexChar(c as int / 16), HexChar(c as int % 16)]
    else [c]
  }

  function JsonEscape(s: string): string {
    if s == [] then "" else JsonEscapeChar(s[0]) + JsonEscape(s[1..])
  }

  /** `JSON.stringify` of a string. */
  function JsonQuote(s: string): string {
    "\"" + JsonEscape(s) + "\""
  }

  function Prepend(c: char, r: Option<string>): Option<string> {
    if r.Some? then Some([c] + r.value) else None
  }

  /** The character a two-character escape `\e` stands for. */
  function EscapedChar(e: char): Option<char> {
    if e == '"' || e == '\\' || e == '/' then Some(e)
    else if e == 'n' then Some('\n')
    else if e == 'r' then Some('\r')
    else if e == 't' then Some('\t')
    else if e == 'b' then Some(8 as char)
    else if e == 'f' then Some(12 as char)
    else None
  }

  /** The value of four hexadecimal digits. */
  function Hex4(t: string, i: nat): (v: nat)
    requires i + 4 <= |t| && AllHexDigits(t[i..i + 4])
    ensures v < 0x10000
  {
    assert IsHexDigit(t[i..i + 4][0]) && IsHexDigit(t[i..i + 4][1]);
    assert IsHexDigit(t[i..i + 4][2]) && IsHexDigit(t[i..i + 4][3]);
    HexDigitValue(t[i]) * 4096 + HexDigitValue(t[i + 1]) * 256 + HexDigitValue(t[i + 2]) * 16 + HexDigitValue(t[i + 3])
  }

  /** The text the body of a JSON string literal stands for; None when the body is malformed. */
  function JsonUnescape(t: string): Option<string>
    decreases |t|
  {
    if t == [] then Some("")
    else if t[0] == '"' || (t[0] as int) < 0x20 then None
    else if t[0] != '\\' then Prepend(t[0], JsonUnescape(t[1..]))
    else if |t| < 2 then None
    else if t[1] == 'u' then
      if |t| >= 6 && AllHexDigits(t[2..6]) && !(0xD800 <= Hex4(t, 2) < 0xE000) then
        Prepend(Hex4(t, 2) as char, JsonUnescape(t[6..]))
      else None
    else if EscapedChar(t[1]).Some? then Prepend(EscapedChar(t[1]).value, JsonUnescape(t[2..]))
    else None
  }

  /** The text of a JSON string literal, quotes included. */
  function JsonUnquote(q: string): Option<string> {
    if |q| >= 2 && q[0] == '"' && q[|q| - 1] == '"' then JsonUnescape(q[1..|q| - 1]) else None
  }

  /** A two-character escape reads back as the character it stands for. */
  lemma ShortEscapeRead(c: char, rest: string)
    requires c == '"' || c == '\\' || c == '\n' || c == '\r' || c == '\t' || c as int == 8 || c as int == 12
    ensures JsonUnescape(JsonEscapeChar(c) + rest) == Prepend(c, JsonUnescape(rest))
  {
    var t := JsonEscapeChar(c) + rest;
    assert |JsonEscapeChar(c)| == 2;
    assert t[0] == '\\' && t[2..] == rest;
    assert EscapedChar(t[1]) == Some(c);
  }

  /** A control character written as `\u00XY` reads back as itself. */
  lemma UnicodeEscapeRead(c: char, rest: string)
    requires (c as int) < 0x20
    ensures JsonUnescape("\\u00" + [HexChar(c as int / 16), HexChar(c as int % 16)] + rest) == Prepend(c, JsonUnescape(rest))
  {
    var h1, h2 := HexChar(c as int / 16), HexChar(c as int % 16);
    var t := "\\u00" + [h1, h2] + rest;
    assert t == ['\\', 'u', '0', '0', h1, h2] + rest;
    assert t[2..6] == ['0', '0', h1, h2];
    assert t[6..] == rest;
    assert Hex4(t, 2) == c as int;
  }

  lemma JsonEscapeCharRead(c: char, rest: string)
    ensures JsonUnescape(JsonEscapeChar(c) + rest) == Prepend(c, JsonUnescape(rest))
  {
    if c == '"' || c == '\\' || c == '\n' || c == '\r' || c == '\t' || c as int == 8 || c as int == 12 {
      ShortEscapeRead(c, rest);
    } else if (c as int) < 0x20 {
      UnicodeEscapeRead(c, rest);
    } else {
      var t := JsonEscapeChar(c) + rest;
      assert t[0] == c && t[1..] == rest;
    }
  }

  /** A string displayed as JSON reads back as itself. */
  lemma {:induction false} JsonEscapeRoundTrip(s: string)
    ensures JsonUnescape(JsonEscape(s)) == Some(s)
  {
    if s != [] {
      JsonEscapeRoundTrip(s[1..]);
      JsonEscapeCharRead(s[0], JsonEscape(s[1..]));
      assert [s[0]] + s[1..] == s;
    }
  }

  /**
   * `tagName` lower-cased, or "element" when there is none; a missing tag reads as "",
   * which lower-cases to itself.
   */
  function DomTag(tag: Option<string>): (r: string)
    ensures r != ""
    ensures tag.None? || tag.value == "" ==> r == "element"
    ensures tag.Some? && tag.value != "" ==> (|r| == |tag.value|
      && forall i :: 0 <= i < |r| ==> !('A' <= r[i] <= 'Z') && LowerChar(r[i]) == LowerChar(tag.value[i]))
  {
    if tag.None? || tag.value == "" then "element" else Lower(tag.value)
  }

  /** The first two non-empty words of a class name, joined by points. */
  function ClassHint(className: string): string {
    var words := NonEmptyPieces(SplitSpace(className));
    Join(words[..if |words| < 2 then |words| else 2], ".")
  }

  /** What follows the tag: the id after "#", then the first two classes after ".". */
  function DomSuffix(id: Option<string>, cls: Option<string>): string {
    (if Truthy(id) then "#" + id.value else "") + (if Truthy(cls) then "." + ClassHint(cls.value) else "")
  }

  /** An element: its tag and what follows it, in angle brackets. */
  function DomElementText(tag: Option<string>, id: Option<string>, cls: Option<string>): string {
    "<" + DomTag(tag) + DomSuffix(id, cls) + ">"
  }

  /** `formatSerializedValue`: the read-only text shown for a value. */
  function FormatSerializedValue(v: Serialized): string {
    match v
    case SNull => "null"
    case SUndefined => "undefined"
    case SBoolean(b) => if b then "true" else "false"
    case SNumber(special, num) =>
      if Truthy(special) then special.value else if num.Some? then FormatDec(num.value) else "NaN"
    case SString(s, truncated) => if truncated then "\"" + s + "…\"" else JsonQuote(s)
    case SBigint(d) => d + "n"
    case SSymbol(d) => "Symbol(" + d + ")"
    case SFunction(name) => "ƒ " + (if name.Some? then name.value else "(anonymous)")
    case SReactElement(d) => d
    case SDomElement(tag, id, cls) => DomElementText(tag, id, cls)
    case SDate(s) => s
    case SRegexp(src, flags) => "/" + src + "/" + flags
    case SError(name, message) => name + ": " + message
    case SCircular(id) => "[Circular #" + NatToString(id) + "]"
    case SMaxDepth(p) => p
    case SArray(n) => "Array(" + NatToString(n) + ")"
    case SObject(name) => (if name.Some? then name.value else "Object") + " {…}"
    case SMap(n) => "Map(" + NatToString(n) + ")"
    case SSet(n) => "Set(" + NatToString(n) + ")"
    case SUnknown(p) => p
    case SOther(kind) => if kind.Some? then kind.value else "unknown"
  }

  /** A whole string is shown as its JSON literal, from which it can be read back. */
  lemma FormatStringReadsBack(s: string)
    ensures JsonUnquote(FormatSerializedValue(SString(s, false))) == Some(s)
  {
    var q := JsonQuote(s);
    assert q[1..|q| - 1] == JsonEscape(s);
    JsonEscapeRoundTrip(s);
  }

  lemma Bracketed(name: string, rest: string)
    ensures var r := "<" + name + rest + ">";
      |r| >= 2 && r[0] == '<' && r[|r| - 1] == '>' && r[1..1 + |name|] == name
  {
    var r := "<" + name + rest + ">";
    assert r == "<" + name + (rest + ">");
  }

  /** An element is shown as its tag in angle brackets. */
  lemma FormatDomElementShape(tag: Option<string>, id: Option<string>, cls: Option<string>)
    ensures var r := DomElementText(tag, id, cls);
      && |r| >= 3 && r[0] == '<' && r[|r| - 1] == '>'
      && r[1..1 + |DomTag(tag)|] == DomTag(tag)
  {
    Bracketed(DomTag(tag), DomSuffix(id, cls));
  }

  // ---------------------------------------------------------------------------------------
  // Rows of the list
  // ---------------------------------------------------------------------------------------

  /** The enum values worth offering: the strings that are not blank, in order. */
  function EnumChoices(raw: seq<Option<string>>): (r: seq<string>)
    ensures forall k :: 0 <= k < |r| ==> Trim(r[k]) != ""
    ensures forall x :: x in r <==> Some(x) in raw && Trim(x) != ""
  {
    if raw == [] then []
    else
      var prev := EnumChoices(raw[..|raw| - 1]);
      var v := raw[|raw| - 1];
      assert raw == raw[..|raw| - 1] + [v];
      if v.Some? && Trim(v.value) != "" then prev + [v.value] else prev
  }

  /** The options of an enum select: the current value first when the values lack it, then each value once. */
  function EnumOptions(current: string, choices: seq<string>): seq<string> {
    (if current != "" && current !in choices then [current] else []) + NonEmptyDistinct(choices)
  }

  /**
   * The select never lists a value twice, lists the current value (first, when the enum
   * lacks it), and otherwise only non-blank enum values, each at its first occurrence.
   */
  lemma EnumOptionsSound(current: string, raw: seq<Option<string>>)
    ensures var choices := EnumChoices(raw);
      var o := EnumOptions(current, choices);
      && (forall j, k :: 0 <= j < k < |o| ==> o[j] != o[k])
      && (current != "" ==> current in o)
      && (current != "" && current !in choices ==> o[0] == current)
      && (forall x :: x in o <==> (x == current && current != "") || (Some(x) in raw && Trim(x) != ""))
      && o[|o| - |NonEmptyDistinct(choices)|..] == NonEmptyDistinct(choices)
  {
    var choices := EnumChoices(raw);
    forall x | x in choices ensures x != "" {
      assert Trim(x) != "";
    }
  }

  /** A primitive the panel writes to a prop. */
  datatype Prim = PStr(s: string) | PNum(n: Dec) | PBool(b: bool)

  /** The serialized form of a value just written. */
  function SerializedOf(v: Prim): Serialized {
    match v
    case PStr(s) => SString(s, false)
    case PNum(d) => SNumber(None, Some(d))
    case PBool(b) => SBoolean(b)
  }

  /** The control a row of the list gets. */
  datatype Control =
    | EnumSelect(options: seq<string>, selected: Option<string>)
    | Checkbox(checked: bool)
    | TextInput(text: string)
    | NumberInput(text: string)
    | ReadOnly(text: string)

  /**
   * The control `renderList` builds for an entry: editable entries with a denied key are
   * shown read-only and marked blocked.
   */
  function RowControl(e: Entry): Control {
    var dangerous := IsDangerousPropKey(e.key);
    var editable := e.editable && !dangerous;
    var choices := EnumChoices(e.enumValues);
    if editable && e.value.SString? && |choices| > 0 then
      var s := e.value.str;
      EnumSelect(EnumOptions(s, choices), if s != "" then Some(s) else None)
    else if editable && e.value.SBoolean? then Checkbox(e.value.flag)
    else if editable && e.value.SString? then TextInput(e.value.str)
    else if editable && e.value.SNumber? && !Truthy(e.value.special) && e.value.num.Some? then
      NumberInput(FormatDec(e.value.num.value))
    else
      ReadOnly(if dangerous then FormatSerializedValue(e.value) + " (blocked)" else FormatSerializedValue(e.value))
  }

  /** An entry with a denied key, or one the bridge marks read-only, gets no control that edits. */
  lemma RowControlGuards(e: Entry)
    ensures IsDangerousPropKey(e.key) ==> RowControl(e) == ReadOnly(FormatSerializedValue(e.value) + " (blocked)")
    ensures !e.editable ==> RowControl(e).ReadOnly?
    ensures RowControl(e).EnumSelect? ==> e.value.SString? && |EnumChoices(e.enumValues)| > 0
  {
  }

  /** The position of the first entry with this key, `|entries|` when there is none. */
  function FirstEntry(entries: seq<Entry>, key: string): (i: nat)
    ensures i <= |entries|
    ensures i < |entries| ==> entries[i].key == key
    ensures forall j :: 0 <= j < i ==> entries[j].key != key
  {
    if entries == [] then 0
    else if entries[0].key == key then 0
    else 1 + FirstEntry(entries[1..], key)
  }

  /** `updateLocalPrimitiveSnapshot`: the first entry with the key takes the written value. */
  function WithPrimitive(data: Option<Data>, key: string, v: Prim): Option<Data> {
    if data.None? || data.value.props.None? then data
    else
      var es := data.value.props.value.entries;
      var i := FirstEntry(es, key);
      if i == |es| then data
      else Some(data.value.(props := Some(data.value.props.value.(
        entries := es[i := es[i].(value := SerializedOf(v), editable := true)]))))
  }
}
