/**
 * What the five style controls (size, spacing, position, layout, appearance) show in their
 * fields: the property lists, the kind of widget each property gets, the normaliser a text
 * field applies, the rule `syncField` follows, the layout rows' visibility and the spacing
 * control's scrub arithmetic. Each control file repeats the same rules; they are stated once.
 */
module FieldSync {
  import opened Text
  import opened Wrappers
  import opened Numbers
  import opened Lengths
  import opened ColorFields
  import opened Dom

  datatype ControlType = Size | Spacing | Position | Layout | Appearance

  const SizeProps: seq<Prop> := ["width", "height"]
  const SpacingProps: seq<Prop> := ["margin-top", "margin-right", "margin-bottom", "margin-left",
    "padding-top", "padding-right", "padding-bottom", "padding-left"]
  const PositionProps: seq<Prop> := ["position", "top", "right", "bottom", "left", "z-index"]
  const LayoutProps: seq<Prop> := ["display", "flex-direction", "flex-wrap", "justify-content", "align-items", "gap"]
  const AppearanceProps: seq<Prop> := ["overflow", "box-sizing", "opacity", "border-radius", "border-width",
    "border-color", "background-color"]

  const PositionValues: seq<string> := ["static", "relative", "absolute", "fixed", "sticky"]
  const DisplayValues: seq<string> := ["block", "inline", "inline-block", "flex", "grid", "none"]
  const FlexDirectionValues: seq<string> := ["row", "row-reverse", "column", "column-reverse"]
  const FlexWrapValues: seq<string> := ["nowrap", "wrap", "wrap-reverse"]
  const JustifyValues: seq<string> := ["flex-start", "flex-end", "center", "space-between", "space-around", "space-evenly"]
  const AlignValues: seq<string> := ["stretch", "flex-start", "flex-end", "center", "baseline"]
  const OverflowValues: seq<string> := ["visible", "hidden", "scroll", "auto"]
  const BoxSizingValues: seq<string> := ["content-box", "border-box"]

  /** The properties a control edits, in the order its loops visit them. */
  function Props(c: ControlType): seq<Prop> {
    match c
    case Size => SizeProps
    case Spacing => SpacingProps
    case Position => PositionProps
    case Layout => LayoutProps
    case Appearance => AppearanceProps
  }

  /** No property occurs twice: each differs from every one before it. */
  predicate Distinct(ps: seq<Prop>)
    decreases |ps|
  {
    ps == [] || (ps[|ps| - 1] !in ps[..|ps| - 1] && Distinct(ps[..|ps| - 1]))
  }

  /** A list whose entries differ pairwise is `Distinct`. */
  lemma {:induction false} DistinctOfPairs(ps: seq<Prop>)
    requires forall j, k :: 0 <= j < k < |ps| ==> ps[j] != ps[k]
    ensures Distinct(ps)
    decreases |ps|
  {
    if ps != [] {
      DistinctOfPairs(ps[..|ps| - 1]);
    }
  }

  /** In a `Distinct` list, an entry does not occur before its own position. */
  lemma {:induction false} DistinctAt(ps: seq<Prop>, i: nat)
    requires Distinct(ps) && i < |ps|
    ensures ps[i] !in ps[..i]
    decreases |ps|
  {
    if i < |ps| - 1 {
      var qs := ps[..|ps| - 1];
      DistinctAt(qs, i);
      assert qs[..i] == ps[..i];
    }
  }

  /** No control lists a property twice. */
  lemma PropsDistinct(c: ControlType)
    ensures Distinct(Props(c))
  {
    var ps := Props(c);
    forall j, k | 0 <= j < k < |ps| ensures ps[j] != ps[k] {
      assert Signature(ps[j]) != Signature(ps[k]);
    }
    DistinctOfPairs(ps);
  }

  /** A property name's length and its first and next-to-last characters: enough to tell apart those of one control. */
  function Signature(s: string): (int, int, int) {
    (|s|, if |s| > 0 then s[0] as int else -1, if |s| > 1 then s[|s| - 2] as int else -1)
  }

  /**
   * The widget a property is edited with: a text input with its normaliser, a select with
   * its options, or a colour field. A select either keeps its value or shows `detached` when
   * the target is gone, falls back to `fallback` for a value it does not offer, and, when
   * `titled`, explains the computed value in its title.
   */
  datatype Kind =
    | TextKind(norm: Normalizer)
    | SelectKind(options: seq<string>, detached: Option<string>, fallback: string, titled: bool)
    | ColorKind

  /** `el.options[0]?.value ?? ''`. */
  function FirstOption(options: seq<string>): string {
    if options == [] then "" else options[0]
  }

  /** A select that keeps its value when detached and falls back to its first option. */
  function PlainSelect(options: seq<string>): Kind {
    SelectKind(options, None, FirstOption(options), false)
  }

  /** The appearance control's `getNormalizer`. */
  function GetNormalizer(p: Prop): (n: Normalizer)
    ensures n == OpacityNorm <==> p == "opacity"
    ensures n == LengthNorm <==> p == "border-radius" || p == "border-width"
    ensures n != ZIndexNorm
  {
    if p == "opacity" then OpacityNorm
    else if p == "border-radius" || p == "border-width" then LengthNorm
    else TrimNorm
  }

  function KindOf(c: ControlType, p: Prop): Kind {
    match c
    case Size => TextKind(LengthNorm)
    case Spacing => TextKind(LengthNorm)
    case Position =>
      if p == "position" then SelectKind(PositionValues, Some("static"), "static", true)
      else if p == "z-index" then TextKind(ZIndexNorm)
      else TextKind(LengthNorm)
    case Layout =>
      if p == "display" then PlainSelect(DisplayValues)
      else if p == "flex-direction" then PlainSelect(FlexDirectionValues)
      else if p == "flex-wrap" then PlainSelect(FlexWrapValues)
      else if p == "justify-content" then PlainSelect(JustifyValues)
      else if p == "align-items" then PlainSelect(AlignValues)
      else TextKind(LengthNorm)
    case Appearance =>
      if p == "overflow" then PlainSelect(OverflowValues)
      else if p == "box-sizing" then PlainSelect(BoxSizingValues)
      else if p == "border-color" || p == "background-color" then ColorKind
      else TextKind(GetNormalizer(p))
  }

  /** The offsets use `normalizeLength`, the z-index `normalizeZIndex`, the position a select. */
  lemma PositionKinds()
    ensures forall p :: p in ["top", "right", "bottom", "left"] ==> KindOf(Position, p) == TextKind(LengthNorm)
    ensures KindOf(Position, "z-index") == TextKind(ZIndexNorm)
    ensures KindOf(Position, "position").SelectKind? && KindOf(Position, "position").options == PositionValues
  {
  }

  /** Every select falls back to one of its own options. */
  lemma FallbackOffered(c: ControlType, p: Prop)
    requires p in Props(c) && KindOf(c, p).SelectKind?
    ensures KindOf(c, p).fallback in KindOf(c, p).options
  {
  }

  /** What a field shows. Which variant a property has is fixed by its kind. */
  datatype Widget =
    | Input(value: string, placeholder: string, disabled: bool)
    | Choice(value: string, disabled: bool, title: string)
    | Swatch(color: ColorState)

  predicate Fits(k: Kind, w: Widget) {
    match k
    case TextKind(_) => w.Input?
    case SelectKind(_, _, _, _) => w.Choice?
    case ColorKind => w.Swatch? && IsHex6(w.color.lastResolvedHex)
  }

  /**
   * A field as the control creates it: an empty input, a select showing its first option,
   * or a fresh colour field.
   */
  function Fresh(k: Kind, probe: map<string, string>): (w: Widget)
    ensures Fits(k, w)
  {
    match k
    case TextKind(_) => Input("", "", false)
    case SelectKind(options, _, _, _) => Choice(FirstOption(options), false, "")
    case ColorKind => Swatch(Swatched(ColorState("", "", false, "", DefaultColorHex, DefaultColorHex), probe))
  }

  /** What `syncField` reads: nothing when the target is missing or detached. */
  datatype View = Detached | Attached(inline: string, computed: string)

  /** The part of the page the fields are synced from: the target and the element styles. */
  datatype Page = Page(target: Option<Elem>, inline: map<(Elem, Prop), string>,
                       computed: map<(Elem, Prop), string>, connected: set<Elem>)

  /** `readInlineValue` and `readComputedValue` for `p` when the target is connected. */
  function PageView(pg: Page, p: Prop): (v: View)
    ensures v.Attached? <==> pg.target.Some? && pg.target.value in pg.connected
  {
    if pg.target.Some? && pg.target.value in pg.connected then
      Attached(Entry(pg.inline, pg.target.value, p), Entry(pg.computed, pg.target.value, p))
    else Detached
  }

  /** `inline || computed`. */
  function Preferred(inline: string, computed: string): (v: string)
    ensures v == "" <==> inline == "" && computed == ""
    ensures inline != "" ==> v == inline
  {
    if inline != "" then inline else computed
  }

  /** The option a select shows for the element's value: that value when offered, else the fallback. */
  function SelectShown(options: seq<string>, fallback: string, inline: string, computed: string): (v: string)
    ensures v in options || v == fallback
    ensures Preferred(inline, computed) in options ==> v == Preferred(inline, computed)
    ensures Preferred(inline, computed) !in options ==> v == fallback
  {
    var v := Preferred(inline, computed);
    if v in options then v else fallback
  }

  /** The position select's title: the computed value, but only when there is no inline one. */
  function PositionTitle(inline: string, computed: string): (t: string)
    ensures t == "" <==> inline != "" || computed == ""
    ensures t != "" ==> t == "Computed: " + computed
  {
    if inline != "" then "" else if computed != "" then "Computed: " + computed else ""
  }

  /**
   * The field after `syncField(p, force)`, from what it showed before, what the element holds
   * and whether the field is being edited (it holds a transaction or has the focus).
   */
  function Synced(k: Kind, w: Widget, view: View, editing: bool, force: bool, probe: map<string, string>): (r: Widget)
    ensures Fits(k, w) ==> Fits(k, r)
  {
    var keep := editing && !force;
    match (k, w)
    case (TextKind(_), Input(value, _, _)) =>
      if view.Detached? then Input("", "", true)
      else Input(if keep then value else view.inline, view.computed, false)
    case (SelectKind(options, detached, fallback, titled), Choice(value, _, title)) =>
      if view.Detached? then Choice(if detached.Some? then detached.value else value, true, title)
      else
        var t := if titled then PositionTitle(view.inline, view.computed) else title;
        Choice(if keep then value else SelectShown(options, fallback, view.inline, view.computed), false, t)
    case (ColorKind, Swatch(st)) =>
      if view.Detached? then
        Swatch(PlaceholderSet(ValueSet(st.(disabled := true), "", probe), "", probe))
      else
        var st' := PlaceholderSet(st.(disabled := false), view.computed, probe);
        Swatch(if keep then st' else ValueSet(st', view.inline, probe))
    case _ => w
  }

  /** The value and placeholder a field shows, whatever its kind ("" for a select's placeholder). */
  function Shown(w: Widget): string {
    match w
    case Input(v, _, _) => v
    case Choice(v, _, _) => v
    case Swatch(st) => st.value
  }

  function Hint(w: Widget): string {
    match w
    case Input(_, h, _) => h
    case Choice(_, _, _) => ""
    case Swatch(st) => st.placeholder
  }

  function Disabled(w: Widget): bool {
    match w
    case Input(_, _, d) => d
    case Choice(_, d, _) => d
    case Swatch(st) => st.disabled
  }

  /** The field after the user types or picks `v`: it shows `v`, and nothing else about it changes. */
  function WithValue(w: Widget, v: string): (r: Widget)
    ensures Shown(r) == v && Hint(r) == Hint(w) && Disabled(r) == Disabled(w)
    ensures forall k :: Fits(k, w) ==> Fits(k, r)
  {
    match w
    case Input(_, placeholder, disabled) => Input(v, placeholder, disabled)
    case Choice(_, disabled, title) => Choice(v, disabled, title)
    case Swatch(st) => Swatch(st.(value := v))
  }

  /**
   * Without a connected target every field is disabled; inputs and colour fields are cleared,
   * the position select shows 'static' and the other selects keep their value.
   */
  lemma SyncedDetached(k: Kind, w: Widget, editing: bool, force: bool, probe: map<string, string>)
    requires Fits(k, w)
    ensures var r := Synced(k, w, Detached, editing, force, probe);
      Disabled(r)
      && (k.SelectKind? ==> Shown(r) == (if k.detached.Some? then k.detached.value else Shown(w)))
      && (!k.SelectKind? ==> Shown(r) == "" && Hint(r) == "")
  {
  }

  /** While a field is edited and the sync is not forced, its value stays and its hint follows the element. */
  lemma SyncedKeepsEditedValue(k: Kind, w: Widget, inline: string, computed: string, probe: map<string, string>)
    requires Fits(k, w)
    ensures var r := Synced(k, w, Attached(inline, computed), true, false, probe);
      !Disabled(r) && Shown(r) == Shown(w)
      && (!k.SelectKind? ==> Hint(r) == computed)
  {
  }

  /**
   * What a synced field shows for a connected target: it is enabled, a select shows the offered
   * `inline || computed` (else its fallback), and any other field shows the inline value with
   * the computed value as its hint.
   */
  predicate ShowsElement(k: Kind, w: Widget, view: View) {
    && view.Attached?
    && !Disabled(w)
    && (k.SelectKind? ==> Shown(w) == SelectShown(k.options, k.fallback, view.inline, view.computed))
    && (!k.SelectKind? ==> Shown(w) == view.inline && Hint(w) == view.computed)
  }

  /** A field that is not being edited, or whose sync is forced, shows the element. */
  lemma SyncedShowsElement(k: Kind, w: Widget, view: View, editing: bool, force: bool, probe: map<string, string>)
    requires Fits(k, w) && view.Attached? && (!editing || force)
    ensures ShowsElement(k, Synced(k, w, view, editing, force, probe), view)
  {
  }

  /** The position select's title follows the element even while the select is being edited. */
  lemma TitleSetWhileEditing(w: Widget, inline: string, computed: string, editing: bool, force: bool, probe: map<string, string>)
    requires Fits(KindOf(Position, "position"), w)
    ensures Synced(KindOf(Position, "position"), w, Attached(inline, computed), editing, force, probe).title
      == PositionTitle(inline, computed)
  {
  }

  /** Syncing twice in a row changes nothing the second time. */
  lemma {:induction false} SyncedIdempotent(k: Kind, w: Widget, view: View, editing: bool, force: bool, probe: map<string, string>)
    requires Fits(k, w)
    ensures var r := Synced(k, w, view, editing, force, probe);
      Shown(Synced(k, r, view, editing, force, probe)) == Shown(r)
      && Hint(Synced(k, r, view, editing, force, probe)) == Hint(r)
      && Disabled(Synced(k, r, view, editing, force, probe)) == Disabled(r)
  {
  }

  /** `field.handle !== null || isFieldFocused(...)`, given the properties with a handle. */
  predicate EditingIn(open: set<Prop>, focused: Option<Prop>, p: Prop) {
    p in open || focused == Some(p)
  }

  /** The kind of each property of a control. */
  function KindMap(c: ControlType): (r: map<Prop, Kind>)
    ensures forall p :: p in r <==> p in Props(c)
    ensures forall p :: p in r ==> r[p] == KindOf(c, p)
  {
    map p | p in Props(c) :: KindOf(c, p)
  }

  /** The fields as the control creates them, one per property. */
  function FreshFields(kinds: map<Prop, Kind>, probe: map<string, string>): (r: map<Prop, Widget>)
    ensures r.Keys == kinds.Keys && AllFit(kinds, r)
    ensures forall p :: p in r ==> r[p] == Fresh(kinds[p], probe)
  {
    map p | p in kinds :: Fresh(kinds[p], probe)
  }

  /** Every field has a kind and fits it. */
  predicate AllFit(kinds: map<Prop, Kind>, ws: map<Prop, Widget>) {
    forall p :: p in ws ==> p in kinds && Fits(kinds[p], ws[p])
  }

  /**
   * `syncAllFields`: the fields after syncing, without force, each property of `ps` in turn,
   * where `views` gives what each property reads and `editing` the properties being edited.
   */
  function SyncedFields(kinds: map<Prop, Kind>, ws: map<Prop, Widget>, ps: seq<Prop>, pg: Page,
                        open: set<Prop>, focused: Option<Prop>, probe: map<string, string>): (r: map<Prop, Widget>)
    requires forall k :: 0 <= k < |ps| ==> ps[k] in ws && ps[k] in kinds
    ensures r.Keys == ws.Keys
    decreases |ps|
  {
    if ps == [] then ws
    else
      var p := ps[|ps| - 1];
      var m := SyncedFields(kinds, ws, ps[..|ps| - 1], pg, open, focused, probe);
      m[p := Synced(kinds[p], m[p], PageView(pg, p), EditingIn(open, focused, p), false, probe)]
  }

  /** With no property listed twice, each listed field is synced once and the others are untouched. */
  lemma {:induction false} SyncedFieldsAt(kinds: map<Prop, Kind>, ws: map<Prop, Widget>, ps: seq<Prop>, pg: Page,
                                         open: set<Prop>, focused: Option<Prop>, probe: map<string, string>, q: Prop)
    requires forall k :: 0 <= k < |ps| ==> ps[k] in ws && ps[k] in kinds
    requires Distinct(ps) && q in ws
    ensures var r := SyncedFields(kinds, ws, ps, pg, open, focused, probe);
      && (q in ps ==> r[q] == Synced(kinds[q], ws[q], PageView(pg, q), EditingIn(open, focused, q), false, probe))
      && (q !in ps ==> r[q] == ws[q])
    decreases |ps|
  {
    if ps != [] {
      var init := ps[..|ps| - 1];
      SyncedFieldsAt(kinds, ws, init, pg, open, focused, probe, q);
      assert ps == init + [ps[|ps| - 1]];
    }
  }

  /** The `hidden` flags of the layout control's direction, wrap, justify, align and gap rows. */
  datatype Rows = Rows(direction: bool, wrap: bool, justify: bool, align: bool, gap: bool)

  /** The rows `updateVisibility` hides for a display value. */
  function RowsHidden(display: string): Rows {
    var flex := display == "flex";
    var flexOrGrid := flex || display == "grid";
    Rows(!flex, !flex, !flexOrGrid, !flexOrGrid, !flexOrGrid)
  }

  /** The properties whose rows are shown. */
  function VisibleRows(h: Rows): set<Prop> {
    (if h.direction then {} else {"flex-direction"})
    + (if h.wrap then {} else {"flex-wrap"})
    + (if h.justify then {} else {"justify-content"})
    + (if h.align then {} else {"align-items"})
    + (if h.gap then {} else {"gap"})
  }

  /** Flex shows every row, grid hides only the two flex rows, anything else hides them all. */
  lemma VisibleRowsByDisplay(display: string)
    ensures display == "flex" ==> VisibleRows(RowsHidden(display)) == {"flex-direction", "flex-wrap", "justify-content", "align-items", "gap"}
    ensures display == "grid" ==> VisibleRows(RowsHidden(display)) == {"justify-content", "align-items", "gap"}
    ensures display != "flex" && display != "grid" ==> VisibleRows(RowsHidden(display)) == {}
    ensures VisibleRows(RowsHidden("grid")) < VisibleRows(RowsHidden("flex"))
  {
    assert "flex" != "grid";
    assert "flex-direction" in VisibleRows(RowsHidden("flex")) && "flex-direction" !in VisibleRows(RowsHidden("grid"));
  }

  /** The pointer has to move at least this far before a press turns into scrubbing. */
  const ScrubThreshold: int := 3

  /** `Math.abs(dx) >= SCRUB_THRESHOLD`. */
  predicate CrossesThreshold(dx: int) {
    dx <= -ScrubThreshold || dx >= ScrubThreshold
  }

  /** `Math.max(0, startValue + Math.round(dx / SCRUB_SENSITIVITY))`, with a sensitivity of 2. */
  function ScrubValue(start: Dec, dx: int): (v: Dec)
    ensures Value(v) >= 0.0
    ensures var moved := Value(start) + HalfRounded(dx) as real;
      Value(v) == if moved < 0.0 then 0.0 else moved
  {
    AtLeastZero(AddInt(start, HalfRounded(dx)))
  }

  /** Dragging from a whole number moves one pixel per two pointer pixels, rounding halves up. */
  lemma ScrubFromWhole(n: int, dx: int)
    requires n >= 0
    ensures 2 * (n + HalfRounded(dx)) >= 2 * n + dx
    ensures Value(ScrubValue(Dec(n, 0), dx)) == if n + HalfRounded(dx) < 0 then 0.0 else (n + HalfRounded(dx)) as real
  {
  }

  /**
   * `parseLength` on the field's text, else on the computed value when the target is attached,
   * else 0: the value scrubbing starts from.
   */
  function ScrubStart(text: string, view: View): (d: Dec)
    ensures ParseLength(text).Some? ==> d == ParseLength(text).value
  {
    var own := ParseLength(text);
    if own.Some? then own.value
    else if view.Attached? && ParseLength(view.computed).Some? then ParseLength(view.computed).value
    else Dec(0, 0)
  }

  /** `String(v) + 'px'` and `String(v)`: what a scrub step writes and shows. */
  function PixelText(v: Dec): string {
    FormatDec(v) + "px"
  }
}
