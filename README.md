# Property panel editing core of the web editor

This project models the style, class and prop editing layer of the browser visual editor in
mcp-chrome, together with the node catalogue of the workflow builder, and proves properties
of that model. The covered parts are:

- **Style controls.** The spacing, size, position, layout and appearance controls. Each keeps
  one field per CSS property. A user edit opens a style transaction that previews the value on
  the selected element. Blur and Enter commit the transaction; Escape rolls it back.
- **Colour field.** The colour field those controls embed, with its hex normalisation and
  rgb-to-hex conversion.
- **CSS panel.** It writes class lists, reads them back, and collects class-name suggestions
  from the selectors of the matched rules. Collecting those names needs CSS identifier
  unescaping.
- **Props panel.** It edits a framework component's props through a bridge. It holds a table
  of debounced writes, a denylist of keys, sessions that make stale replies harmless, and the
  merging of bridge responses.
- **Node catalogue.** The workflow builder's node list: its registry by type, its grouping by
  category, and the canvas keys.

## Modules

Modules follow the program's structure:

| file | module | what it holds |
|---|---|---|
| `wrappers.dfy` | `Wrappers` | the `Option` type |
| `text.dfy` | `Text` | string primitives: `trim`, `split(/\s+/)`, `indexOf`, decimal digits |
| `numbers.dfy` | `Numbers` | exact decimals `Dec(mant, scale)` for the numbers the sources parse, and the `parseFloat` prefix reader |
| `dom.dfy` | `Dom` | the `Document` class: inline declarations, computed values, connected elements and `class` attributes |
| `transactions.dfy` | `Transactions` | the `TransactionManager` class: open style transactions and the undo history |
| `lengths.dfy` | `Lengths` | `normalizeLength`, `normalizeZIndex`, `normalizeOpacity` and `parseLength` |
| `colorfield.dfy` | `ColorFields` | the colour field's value functions and its `ColorField` class |
| `fieldsync.dfy` | `FieldSync` | each control's properties and widget kinds; `syncField` as a function on widget values |
| `stylecontrol.dfy` | `StyleControls` | `StyleControl`, one class for all five controls, selected by `ControlType` |
| `classlists.dfy` | `ClassLists` | `readElementClasses` and `applyClassListToElement` |
| `css.dfy` | `CssIdents` | `unescapeCssIdentifier`, `consumeClassIdent` and `extractClassNamesFromSelector` |
| `csspanel.dfy` | `CssPanel` | the suggestion collection, `formatSpecificity` and the `Panel` class |
| `props.dfy` | `Props` | the props panel's value functions: key denylist, number input, response merge, status line, value display, row controls |
| `propspanel.dfy` | `PropsPanel` | the pending-write table and the props `Panel` class with its bridge events |
| `uinodes.dfy` | `UiNodes` | the node list, its registry, `listByCategory` and `canvasTypeKey` |

The five controls share one generic class because their sources repeat the same
begin/commit/rollback/sync code, over different property lists. The spacing control adds
scrubbing, the layout control row visibility, and the appearance control colour fields.

### How the browser and the bridge are modelled

- **Browser state.** It lives in a `Document` object. Computed styles are a map the caller
  provides.
- **Colour parser.** The browser's colour parser on the hidden probe element is a map `probe`
  from accepted colour strings to the computed `background-color` they report.
- **Class lists.** An element's `classList` is derived from its `class` attribute by the
  DOM's ordered-set parser: tokens split on ASCII white space, each kept once. The attribute
  split of `readElementClasses`' fallback is modelled too, but a browser never reaches it.
- **Calls out.** Timers and the asynchronous bridge calls of the props panel are modelled as
  events. Each call the panel makes goes into a `requests` log. Each reply is a method taking
  the session id captured when the call was made.

## Model

| member | source | states |
|---|---|---|
| Dom.Document.InlineValue | app/chrome-extension/entrypoints/web-editor-v2/ui/property-panel/controls/spacing-control.ts:101-112 | the inline declaration read is trimmed, and "" when the element declares nothing |
| Dom.Document.ComputedValue | app/chrome-extension/entrypoints/web-editor-v2/ui/property-panel/controls/spacing-control.ts:114-125 | the computed value read is trimmed, and "" when there is none |
| Dom.Document.WriteInline | app/chrome-extension/entrypoints/web-editor-v2/ui/property-panel/controls/spacing-control.ts:272 | a style write sets or removes exactly one declaration and changes nothing else in the document |
| Dom.Declared | app/chrome-extension/entrypoints/web-editor-v2/ui/property-panel/controls/spacing-control.ts:495-496 | writing the empty value removes the declaration, any other value stores it |
| Transactions.TransactionManager.BeginStyle | app/chrome-extension/entrypoints/web-editor-v2/ui/property-panel/controls/spacing-control.ts:272 | a new handle is fresh, and its transaction captures the element's current declaration as baseline |
| Transactions.TransactionManager.Set | app/chrome-extension/entrypoints/web-editor-v2/ui/property-panel/controls/spacing-control.ts:492-496 | an open handle writes the previewed declaration; a closed one changes nothing |
| Transactions.TransactionManager.Commit | app/chrome-extension/entrypoints/web-editor-v2/ui/property-panel/controls/spacing-control.ts:286 | committing closes the transaction and appends one history entry from baseline to the current declaration |
| Transactions.TransactionManager.Rollback | app/chrome-extension/entrypoints/web-editor-v2/ui/property-panel/controls/spacing-control.ts:299 | rolling back restores the captured baseline, closes the transaction and leaves the history alone |
| Transactions.TransactionManager.RecordClass | app/chrome-extension/entrypoints/web-editor-v2/ui/property-panel/css-panel.ts:496-498 | a recorded class edit applies the normalised class list and appends one class entry (before, after) |
| Transactions.CommitEntriesExactlyOnce | app/chrome-extension/entrypoints/web-editor-v2/ui/property-panel/controls/spacing-control.ts:306-317 | committing every listed property commits each open transaction exactly once and nothing else, even when a property is listed twice |
| Lengths.NormalizeLengthIdempotent | app/chrome-extension/entrypoints/web-editor-v2/ui/property-panel/controls/spacing-control.ts:66-81 | `normalizeLength` applied twice gives the same as once |
| Lengths.NormalizeZIndexIdempotent | app/chrome-extension/entrypoints/web-editor-v2/ui/property-panel/controls/position-control.ts:65-70 | `normalizeZIndex` applied twice gives the same as once |
| Lengths.NormalizeOpacity | app/chrome-extension/entrypoints/web-editor-v2/ui/property-panel/controls/appearance-control.ts:87-92 | the opacity is trimmed, and "" exactly when the input is blank |
| Lengths.NormalizeZIndexOfTrailingDot | app/chrome-extension/entrypoints/web-editor-v2/ui/property-panel/controls/position-control.ts:65-70 | "10." loses its point and gets no unit: "10" |
| Lengths.NormalizeZIndexOfInteger | app/chrome-extension/entrypoints/web-editor-v2/ui/property-panel/controls/position-control.ts:65-70 | a whole z-index stays as written |
| Lengths.NormalizeBlank | app/chrome-extension/entrypoints/web-editor-v2/ui/property-panel/controls/appearance-control.ts:79-92 | every normaliser yields "" (which clears the declaration) exactly for blank input |
| Lengths.NormalizeLengthOfInteger | app/chrome-extension/entrypoints/web-editor-v2/ui/property-panel/controls/spacing-control.ts:72-74 | a bare integer gets the unit px: "10" becomes "10px" |
| Lengths.NormalizeLengthOfTrailingDot | app/chrome-extension/entrypoints/web-editor-v2/ui/property-panel/controls/spacing-control.ts:75-77 | a number with a trailing point loses it and gets px: "10." becomes "10px" |
| Lengths.NormalizeLengthOfFraction | app/chrome-extension/entrypoints/web-editor-v2/ui/property-panel/controls/spacing-control.ts:72-74 | a signed fraction without integer digits gets px: "-.5" becomes "-.5px" |
| Lengths.NormalizeLengthKeepsPercent | app/chrome-extension/entrypoints/web-editor-v2/ui/property-panel/controls/spacing-control.ts:79-80 | a value with its own unit passes through: "50%" |
| Lengths.NormalizeLengthKeepsKeyword | app/chrome-extension/entrypoints/web-editor-v2/ui/property-panel/controls/spacing-control.ts:79-80 | a keyword passes through: "auto" |
| Lengths.NormalizeLengthOfEmpty | app/chrome-extension/entrypoints/web-editor-v2/ui/property-panel/controls/spacing-control.ts:68-70 | the empty input stays "" |
| Lengths.ParseLength | app/chrome-extension/entrypoints/web-editor-v2/ui/property-panel/controls/spacing-control.ts:127-146 | a blank value parses as 0 |
| Lengths.ParseLengthOfNumber | app/chrome-extension/entrypoints/web-editor-v2/ui/property-panel/controls/spacing-control.ts:127-146 | a number, bare or followed by px, parses as that number's exact value |
| Lengths.ParseLengthOfNormalized | app/chrome-extension/entrypoints/web-editor-v2/ui/property-panel/controls/spacing-control.ts:66-81 | normalising a typed length never changes the number `parseLength` reads from it |
| Lengths.ParseLengthDecimal | app/chrome-extension/entrypoints/web-editor-v2/ui/property-panel/controls/spacing-control.ts:127-146 | appending px to a number literal does not change what `parseLength` reads |
| Lengths.ParseLengthTrailingDot | app/chrome-extension/entrypoints/web-editor-v2/ui/property-panel/controls/spacing-control.ts:127-146 | "10." and "10px" parse alike |
| Lengths.ParseRunWithUnit | app/chrome-extension/entrypoints/web-editor-v2/ui/property-panel/controls/spacing-control.ts:131-145 | a sign and a run of digits and points, followed by nothing or px, parse as `parseFloat` reads that run |
| Numbers.Normalize | app/chrome-extension/entrypoints/web-editor-v2/ui/property-panel/controls/spacing-control.ts:441-446 | removing trailing fraction zeros keeps the value and leaves no trailing zero |
| Numbers.HalfRounded | app/chrome-extension/entrypoints/web-editor-v2/ui/property-panel/controls/spacing-control.ts:441 | `Math.round(dx / 2)` of an integer lies within half of dx/2, with halves rounded up |
| Numbers.AtLeastZero | app/chrome-extension/entrypoints/web-editor-v2/ui/property-panel/controls/spacing-control.ts:441 | `Math.max(0, n)` is n when n is not negative, else 0 |
| ColorFields.Round | app/chrome-extension/entrypoints/web-editor-v2/ui/property-panel/controls/color-field.ts:58 | `Math.round` of an exact decimal is the nearest integer, halves upwards |
| ColorFields.Clamp | app/chrome-extension/entrypoints/web-editor-v2/ui/property-panel/controls/color-field.ts:56-62 | the rounded byte is limited to [0, 255], kept when inside, 0 below and 255 above |
| ColorFields.ClampWhole | app/chrome-extension/entrypoints/web-editor-v2/ui/property-panel/controls/color-field.ts:56-62 | a whole component clamps to itself up to 255 and to 255 above |
| ColorFields.ToHexByte | app/chrome-extension/entrypoints/web-editor-v2/ui/property-panel/controls/color-field.ts:64-66 | a byte is exactly two lower-case hex digits whose value is the clamped byte |
| ColorFields.RgbToHex | app/chrome-extension/entrypoints/web-editor-v2/ui/property-panel/controls/color-field.ts:71-84 | any result of rgb-to-hex is "#" and six lower-case hex digits |
| ColorFields.RgbToHexOfRgbText | app/chrome-extension/entrypoints/web-editor-v2/ui/property-panel/controls/color-field.ts:71-84 | `rgb(r, g, b)` as the browser computes it converts to the hex of its three clamped components |
| ColorFields.RgbTextMatch | app/chrome-extension/entrypoints/web-editor-v2/ui/property-panel/controls/color-field.ts:72 | the pattern captures the three digit runs of `rgb(A, B, C)` |
| ColorFields.NaturalComponent | app/chrome-extension/entrypoints/web-editor-v2/ui/property-panel/controls/color-field.ts:75-77 | `Number` of a natural number's digits is that number |
| ColorFields.NormalizeHex | app/chrome-extension/entrypoints/web-editor-v2/ui/property-panel/controls/color-field.ts:89-116 | any normalised hex is "#" and six lower-case hex digits |
| ColorFields.NormalizeHexAccepts | app/chrome-extension/entrypoints/web-editor-v2/ui/property-panel/controls/color-field.ts:89-116 | exactly '#' with 3, 4, 6 or 8 hex digits, after trimming and lower-casing, is accepted |
| ColorFields.NormalizeHexIdempotent | app/chrome-extension/entrypoints/web-editor-v2/ui/property-panel/controls/color-field.ts:89-116 | a normalised hex is its own normal form |
| ColorFields.NormalizeHexOfShort | app/chrome-extension/entrypoints/web-editor-v2/ui/property-panel/controls/color-field.ts:96-102 | "#ABC" becomes "#aabbcc": lower-cased and each digit doubled |
| ColorFields.NormalizeHexOfShortAlpha | app/chrome-extension/entrypoints/web-editor-v2/ui/property-panel/controls/color-field.ts:107-113 | "#abcd" becomes "#aabbcc": the alpha digit dropped and the rest doubled |
| ColorFields.NormalizeHexOfLongAlpha | app/chrome-extension/entrypoints/web-editor-v2/ui/property-panel/controls/color-field.ts:104-105 | "#12345678" becomes "#123456": the two alpha digits dropped |
| ColorFields.HexIsFixed | app/chrome-extension/entrypoints/web-editor-v2/ui/property-panel/controls/color-field.ts:94 | a "#rrggbb" value normalises to itself |
| ColorFields.DisplayValue | app/chrome-extension/entrypoints/web-editor-v2/ui/property-panel/controls/color-field.ts:193-195 | the display value is the trimmed value, or the trimmed placeholder when the value is blank |
| ColorFields.ResolveDisplayColor | app/chrome-extension/entrypoints/web-editor-v2/ui/property-panel/controls/color-field.ts:200-202 | blank input resolves to no swatch and no hex; any resolved hex is "#rrggbb" |
| ColorFields.ResolveHexColor | app/chrome-extension/entrypoints/web-editor-v2/ui/property-panel/controls/color-field.ts:204-206 | a hex value shows its normal form on the swatch and in the picker |
| ColorFields.ResolveThroughProbe | app/chrome-extension/entrypoints/web-editor-v2/ui/property-panel/controls/color-field.ts:208-216 | any other accepted colour shows its computed colour, and the picker gets that colour converted to hex |
| ColorFields.ResolveRejected | app/chrome-extension/entrypoints/web-editor-v2/ui/property-panel/controls/color-field.ts:210-212 | a value the browser rejects resolves to nothing |
| ColorFields.SwatchedKeepsHexUnlessResolved | app/chrome-extension/entrypoints/web-editor-v2/ui/property-panel/controls/color-field.ts:225-239 | the last resolved hex changes only when the display value resolves to one |
| ColorFields.PickerOpened | app/chrome-extension/entrypoints/web-editor-v2/ui/property-panel/controls/color-field.ts:244-250 | a disabled picker changes nothing; otherwise it opens on the last resolved hex, which stays "#rrggbb" |
| ColorFields.ValueSet | app/chrome-extension/entrypoints/web-editor-v2/ui/property-panel/controls/color-field.ts:316-320 | the value becomes v, placeholder and disabled flag stay, and the last hex, which the swatch may update, stays in "#rrggbb" form |
| ColorFields.PlaceholderSet | app/chrome-extension/entrypoints/web-editor-v2/ui/property-panel/controls/color-field.ts:322-326 | the placeholder becomes v, value and disabled flag stay, and the last hex stays in "#rrggbb" form |
| ColorFields.NativePicked | app/chrome-extension/entrypoints/web-editor-v2/ui/property-panel/controls/color-field.ts:296-301 | a picked colour becomes the value, and nothing else the user set changes |
| ColorFields.ColorField.constructor | app/chrome-extension/entrypoints/web-editor-v2/ui/property-panel/controls/color-field.ts:140-309 | a new field is empty, enabled, starts from #000000 and has run its first swatch update |
| ColorFields.ColorField.UpdateSwatch | app/chrome-extension/entrypoints/web-editor-v2/ui/property-panel/controls/color-field.ts:225-239 | the field's state becomes `Swatched` of the old state |
| ColorFields.ColorField.SetValue | app/chrome-extension/entrypoints/web-editor-v2/ui/property-panel/controls/color-field.ts:316-320 | the field's state becomes `ValueSet` of the old state |
| ColorFields.ColorField.SetPlaceholder | app/chrome-extension/entrypoints/web-editor-v2/ui/property-panel/controls/color-field.ts:322-326 | the field's state becomes `PlaceholderSet` of the old state |
| ColorFields.ColorField.SetDisabled | app/chrome-extension/entrypoints/web-editor-v2/ui/property-panel/controls/color-field.ts:328-332 | only the disabled flag changes |
| ColorFields.ColorField.OnTextInput | app/chrome-extension/entrypoints/web-editor-v2/ui/property-panel/controls/color-field.ts:272-276 | the typed text becomes the value, and the callback receives it trimmed |
| ColorFields.ColorField.OnNativeInput | app/chrome-extension/entrypoints/web-editor-v2/ui/property-panel/controls/color-field.ts:296-301 | the picked colour becomes the value, and the callback receives it unchanged |
| ColorFields.ColorField.OpenPicker | app/chrome-extension/entrypoints/web-editor-v2/ui/property-panel/controls/color-field.ts:244-250 | the field's state becomes `PickerOpened` of the old state |
| FieldSync.PropsDistinct | app/chrome-extension/entrypoints/web-editor-v2/ui/property-panel/controls/spacing-control.ts:39-48 | no control lists a property twice |
| FieldSync.GetNormalizer | app/chrome-extension/entrypoints/web-editor-v2/ui/property-panel/controls/appearance-control.ts:416-420 | opacity gets the opacity normaliser, the border radius and width get `normalizeLength`, and nothing gets the z-index one |
| FieldSync.PositionKinds | app/chrome-extension/entrypoints/web-editor-v2/ui/property-panel/controls/position-control.ts:346-350 | the offsets use `normalizeLength`, the z-index `normalizeZIndex`, and the position is a select over the five values |
| FieldSync.FallbackOffered | app/chrome-extension/entrypoints/web-editor-v2/ui/property-panel/controls/layout-control.ts:255-262 | every select falls back to one of its own options |
| FieldSync.Preferred | app/chrome-extension/entrypoints/web-editor-v2/ui/property-panel/controls/spacing-control.ts:336-338 | `inline \|\| computed` is the inline value when there is one, and "" only when both are empty |
| FieldSync.SelectShown | app/chrome-extension/entrypoints/web-editor-v2/ui/property-panel/controls/layout-control.ts:255-262 | a select shows the element's value when it offers it, and its fallback otherwise |
| FieldSync.PositionTitle | app/chrome-extension/entrypoints/web-editor-v2/ui/property-panel/controls/position-control.ts:270-273 | the position title shows the computed value exactly when there is no inline one |
| FieldSync.Synced | app/chrome-extension/entrypoints/web-editor-v2/ui/property-panel/controls/spacing-control.ts:319-344 | a sync keeps the field fit for its kind |
| FieldSync.SyncedDetached | app/chrome-extension/entrypoints/web-editor-v2/ui/property-panel/controls/position-control.ts:250-259 | without a connected target every field is disabled: inputs cleared, the position select at 'static', other selects unchanged |
| FieldSync.SyncedKeepsEditedValue | app/chrome-extension/entrypoints/web-editor-v2/ui/property-panel/controls/spacing-control.ts:330-335 | a field being edited keeps its text unless forced, while its placeholder follows the computed value |
| FieldSync.SyncedShowsElement | app/chrome-extension/entrypoints/web-editor-v2/ui/property-panel/controls/spacing-control.ts:336-343 | a field not being edited, or a forced sync, shows what the element holds |
| FieldSync.TitleSetWhileEditing | app/chrome-extension/entrypoints/web-editor-v2/ui/property-panel/controls/position-control.ts:270-275 | the position title follows the element even while the select is edited |
| FieldSync.SyncedIdempotent | app/chrome-extension/entrypoints/web-editor-v2/ui/property-panel/controls/spacing-control.ts:319-344 | syncing a second time changes nothing that is shown |
| FieldSync.WithValue | app/chrome-extension/entrypoints/web-editor-v2/ui/property-panel/controls/layout-control.ts:274-278 | a typed or picked value is shown, and nothing else about the field changes |
| FieldSync.SyncedFieldsAt | app/chrome-extension/entrypoints/web-editor-v2/ui/property-panel/controls/spacing-control.ts:349-353 | `syncAllFields` syncs each listed field once, not forced, and leaves every other field alone |
| FieldSync.VisibleRowsByDisplay | app/chrome-extension/entrypoints/web-editor-v2/ui/property-panel/controls/layout-control.ts:221-231 | flex shows all five flex rows, grid only the alignment and gap rows, anything else none |
| FieldSync.ScrubValue | app/chrome-extension/entrypoints/web-editor-v2/ui/property-panel/controls/spacing-control.ts:441 | the scrubbed value is the start value plus half the distance, rounded, and never below 0 |
| FieldSync.ScrubFromWhole | app/chrome-extension/entrypoints/web-editor-v2/ui/property-panel/controls/spacing-control.ts:441 | from a whole start value the drag moves one pixel per two pointer pixels |
| FieldSync.ScrubStart | app/chrome-extension/entrypoints/web-editor-v2/ui/property-panel/controls/spacing-control.ts:371-391 | scrubbing starts from the field's own length whenever the field's text parses |
| StyleControls.StyleControl.constructor | app/chrome-extension/entrypoints/web-editor-v2/ui/property-panel/controls/spacing-control.ts:175-262 | a new control has one fresh field per property, no target, no handles and no focus |
| StyleControls.NewControl | app/chrome-extension/entrypoints/web-editor-v2/ui/property-panel/controls/layout-control.ts:95-351 | a created control has run its initial sync, and the layout control its row visibility |
| StyleControls.StyleControl.BeginTransaction | app/chrome-extension/entrypoints/web-editor-v2/ui/property-panel/controls/spacing-control.ts:263-275 | no handle once disposed or without a connected target; the open handle when there is one; else a new transaction with the current declaration as baseline |
| StyleControls.StyleControl.CommitTransaction | app/chrome-extension/entrypoints/web-editor-v2/ui/property-panel/controls/spacing-control.ts:280-291 | the handle is cleared, and its transaction is closed and recorded in the history |
| StyleControls.StyleControl.RollbackTransaction | app/chrome-extension/entrypoints/web-editor-v2/ui/property-panel/controls/spacing-control.ts:293-304 | the handle is cleared, and the baseline declaration is restored without a history entry |
| StyleControls.StyleControl.CommitAll | app/chrome-extension/entrypoints/web-editor-v2/ui/property-panel/controls/spacing-control.ts:306-317 | every open transaction is committed once, in property order, and no handle remains |
| StyleControls.CommitEachAll | app/chrome-extension/entrypoints/web-editor-v2/ui/property-panel/controls/spacing-control.ts:306-317 | committing every held property clears all handles and closes exactly their transactions |
| StyleControls.StyleControl.SyncField | app/chrome-extension/entrypoints/web-editor-v2/ui/property-panel/controls/spacing-control.ts:319-344 | only the field of `p` changes, to `Synced` of what it showed and what the element holds |
| StyleControls.StyleControl.SyncEach | app/chrome-extension/entrypoints/web-editor-v2/ui/property-panel/controls/spacing-control.ts:349-353 | the fields become `SyncedFields` of the old fields, over the control's properties in order |
| StyleControls.StyleControl.SyncAll | app/chrome-extension/entrypoints/web-editor-v2/ui/property-panel/controls/layout-control.ts:265-268 | every field is synced, and the layout control's rows then follow the display select |
| StyleControls.StyleControl.UpdateVisibility | app/chrome-extension/entrypoints/web-editor-v2/ui/property-panel/controls/layout-control.ts:221-231 | the hidden rows follow the display value shown |
| StyleControls.StyleControl.SetTarget | app/chrome-extension/entrypoints/web-editor-v2/ui/property-panel/controls/spacing-control.ts:539-549 | a different element commits every open transaction first; the target is taken and every field synced; disposed, nothing changes |
| StyleControls.StyleControl.Refresh | app/chrome-extension/entrypoints/web-editor-v2/ui/property-panel/controls/spacing-control.ts:551-554 | every field is re-synced unless the control is disposed |
| StyleControls.StyleControl.Dispose | app/chrome-extension/entrypoints/web-editor-v2/ui/property-panel/controls/spacing-control.ts:556-560 | every open transaction is committed, the target is cleared and the control is disposed |
| StyleControls.StyleControl.Preview | app/chrome-extension/entrypoints/web-editor-v2/ui/property-panel/controls/appearance-control.ts:241-244 | an edit previews the value through the property's transaction, which keeps the pre-edit declaration as baseline |
| StyleControls.StyleControl.TextInput | app/chrome-extension/entrypoints/web-editor-v2/ui/property-panel/controls/spacing-control.ts:491-497 | typed text is shown, and previewed normalised on a connected target |
| StyleControls.StyleControl.SelectInput | app/chrome-extension/entrypoints/web-editor-v2/ui/property-panel/controls/layout-control.ts:274-281 | a chosen option is shown and previewed; a new display value re-lays the rows |
| StyleControls.StyleControl.ColorTextInput | app/chrome-extension/entrypoints/web-editor-v2/ui/property-panel/controls/appearance-control.ts:241-244 | typed colour text updates the colour field and is previewed trimmed |
| StyleControls.StyleControl.ColorNativeInput | app/chrome-extension/entrypoints/web-editor-v2/ui/property-panel/controls/appearance-control.ts:259-262 | a picked colour updates the colour field and is previewed unchanged |
| StyleControls.StyleControl.SwatchClick | app/chrome-extension/entrypoints/web-editor-v2/ui/property-panel/controls/color-field.ts:266-269 | a swatch click opens the colour field's picker |
| StyleControls.StyleControl.Focus | app/chrome-extension/entrypoints/web-editor-v2/ui/property-panel/controls/spacing-control.ts:86-99 | the focused field is recorded |
| StyleControls.StyleControl.CommitEdit | app/chrome-extension/entrypoints/web-editor-v2/ui/property-panel/controls/appearance-control.ts:263-266 | the property's transaction is committed into the history and every field re-synced |
| StyleControls.StyleControl.Blur | app/chrome-extension/entrypoints/web-editor-v2/ui/property-panel/controls/spacing-control.ts:500-503 | blur commits the field's transaction, and the field then shows what the element holds |
| StyleControls.StyleControl.KeyEnter | app/chrome-extension/entrypoints/web-editor-v2/ui/property-panel/controls/spacing-control.ts:507-513 | Enter commits, re-syncs and blurs, so a focused field ends up unfocused and showing the element |
| StyleControls.StyleControl.KeyEscape | app/chrome-extension/entrypoints/web-editor-v2/ui/property-panel/controls/spacing-control.ts:515-520 | Escape restores the baseline declaration without a history entry, and the field is force-synced to show the element |
| StyleControls.StyleControl.PointerDown | app/chrome-extension/entrypoints/web-editor-v2/ui/property-panel/controls/spacing-control.ts:396-420 | a left-button press on an unfocused field arms a scrub from the field's current length |
| StyleControls.StyleControl.PointerMove | app/chrome-extension/entrypoints/web-editor-v2/ui/property-panel/controls/spacing-control.ts:422-453 | no preview until the pointer passes the 3-pixel threshold; after that each move previews `ScrubValue` in px |
| StyleControls.StyleControl.ScrubTo | app/chrome-extension/entrypoints/web-editor-v2/ui/property-panel/controls/spacing-control.ts:438-449 | one scrub step previews v px on the element and shows v in the field |
| StyleControls.StyleControl.PointerUp | app/chrome-extension/entrypoints/web-editor-v2/ui/property-panel/controls/spacing-control.ts:455-484 | a real scrub commits the field's transaction into the history once and re-syncs the fields; a press that never scrubbed restores the baseline, records nothing and focuses the field |
| ClassLists.NormalizedClassesSound | app/chrome-extension/entrypoints/web-editor-v2/ui/property-panel/css-panel.ts:86-108 | the kept class tokens are exactly the non-empty trimmed inputs, each trimmed |
| ClassLists.NormalizedClasses | app/chrome-extension/entrypoints/web-editor-v2/ui/property-panel/css-panel.ts:86-108 | the kept tokens are non-empty and pairwise distinct |
| ClassLists.NormalizeClassList | app/chrome-extension/entrypoints/web-editor-v2/ui/property-panel/css-panel.ts:87-100 | the de-duplicating loop yields `NormalizedClasses` |
| ClassLists.ClassValueJoin | app/chrome-extension/entrypoints/web-editor-v2/ui/property-panel/css-panel.ts:101-107 | the attribute is removed exactly when no token is left; otherwise it is the tokens joined by single spaces |
| ClassLists.ApplyClassListToElement | app/chrome-extension/entrypoints/web-editor-v2/ui/property-panel/css-panel.ts:86-108 | only the element's class attribute changes, to `ClassValue` of the list |
| ClassLists.ClassListTokens | app/chrome-extension/entrypoints/web-editor-v2/ui/property-panel/css-panel.ts:64-66 | the classes read through `classList` are non-empty, hold no ASCII white space, never repeat, and are exactly the attribute's tokens |
| ClassLists.ClassListOfJoin | app/chrome-extension/entrypoints/web-editor-v2/ui/property-panel/css-panel.ts:64-66 | distinct tokens without ASCII white space, joined by spaces, read back through `classList` as themselves |
| ClassLists.ClassListOfDuplicate | app/chrome-extension/entrypoints/web-editor-v2/ui/property-panel/css-panel.ts:64-66 | `class="btn btn primary"` reads as `["btn", "primary"]`: a repeated class is read once |
| ClassLists.ClassListOfNoBreakSpace | app/chrome-extension/entrypoints/web-editor-v2/ui/property-panel/css-panel.ts:64-77 | a no-break space does not separate classes in `classList`, while the fallback split cuts there |
| ClassLists.ElementClassesTokens | app/chrome-extension/entrypoints/web-editor-v2/ui/property-panel/css-panel.ts:72-77 | each class read by the attribute fallback is non-empty and holds no white space |
| ClassLists.ElementClassesOfEmpty | app/chrome-extension/entrypoints/web-editor-v2/ui/property-panel/css-panel.ts:72-77 | a missing attribute reads as no classes in the fallback |
| ClassLists.ElementClassesOfJoin | app/chrome-extension/entrypoints/web-editor-v2/ui/property-panel/css-panel.ts:72-77 | tokens without white space joined by spaces read back as the same tokens through the fallback split |
| ClassLists.ClassValueReadBack | app/chrome-extension/entrypoints/web-editor-v2/ui/property-panel/css-panel.ts:62-108 | writing a class list and reading its `classList` back gives its normalised tokens, when no token holds ASCII white space inside it |
| ClassLists.NonEmptyDistinctPrefix | app/chrome-extension/entrypoints/web-editor-v2/ui/property-panel/css-panel.ts:91-99 | de-duplication keeps first occurrences: later input never disturbs the earlier result |
| CssIdents.UnescapeCssIdentifier | app/chrome-extension/entrypoints/web-editor-v2/ui/property-panel/css-panel.ts:121-158 | the loop computes `Unescape` of the input |
| CssIdents.CollectHex | app/chrome-extension/entrypoints/web-editor-v2/ui/property-panel/css-panel.ts:131-137 | the inner loop reads at most six hex digits |
| CssIdents.UnescapeEscape | app/chrome-extension/entrypoints/web-editor-v2/ui/property-panel/css-panel.ts:121-158 | escaping any text, whichever characters go by code point, unescapes back to that text |
| CssIdents.UnescapeWithoutBackslash | app/chrome-extension/entrypoints/web-editor-v2/ui/property-panel/css-panel.ts:153-155 | text without a backslash is its own unescaping |
| CssIdents.UnescapeCodePoint | app/chrome-extension/entrypoints/web-editor-v2/ui/property-panel/css-panel.ts:131-145 | one to six hex digits naming a Unicode code point give that code point and swallow one following space |
| CssIdents.UnescapeCharAfter | app/chrome-extension/entrypoints/web-editor-v2/ui/property-panel/css-panel.ts:146-151 | a backslash naming no code point keeps the character after the digits, if any |
| CssIdents.UnescapeTailwindExample | app/chrome-extension/entrypoints/web-editor-v2/ui/property-panel/css-panel.ts:117-120 | "sm\\:bg-red-500" unescapes to "sm:bg-red-500" |
| CssIdents.UnescapeHexExample | app/chrome-extension/entrypoints/web-editor-v2/ui/property-panel/css-panel.ts:131-145 | "\\31 23" unescapes to "123" |
| CssIdents.UnescapeTrailingBackslash | app/chrome-extension/entrypoints/web-editor-v2/ui/property-panel/css-panel.ts:127-130 | a trailing backslash is dropped |
| CssIdents.UnescapeBeyondUnicode | app/chrome-extension/entrypoints/web-editor-v2/ui/property-panel/css-panel.ts:141-151 | six digits beyond U+10FFFF are dropped and the character after them kept |
| CssIdents.IdentEnd | app/chrome-extension/entrypoints/web-editor-v2/ui/property-panel/css-panel.ts:168-223 | an identifier ends at a terminator or at the end |
| CssIdents.IdentEndEscaped | app/chrome-extension/entrypoints/web-editor-v2/ui/property-panel/css-panel.ts:168-223 | every terminator inside an identifier is escaped: after a backslash, or the space closing a hex escape |
| CssIdents.ConsumeClassIdent | app/chrome-extension/entrypoints/web-editor-v2/ui/property-panel/css-panel.ts:168-223 | the loop computes `IdentEnd` |
| CssIdents.ClassNames | app/chrome-extension/entrypoints/web-editor-v2/ui/property-panel/css-panel.ts:229-280 | each name extracted from a selector is non-empty and trimmed |
| CssIdents.ExtractClassNamesFromSelector | app/chrome-extension/entrypoints/web-editor-v2/ui/property-panel/css-panel.ts:229-280 | the scan loop computes `ClassNames` |
| CssIdents.ReadClass | app/chrome-extension/entrypoints/web-editor-v2/ui/property-panel/css-panel.ts:266-274 | a class selector's name is its identifier unescaped and trimmed |
| CssIdents.BracketBodyIgnored | app/chrome-extension/entrypoints/web-editor-v2/ui/property-panel/css-panel.ts:252-262 | nothing inside an attribute selector, dots included, is taken for a class |
| CssIdents.QuotedIgnored | app/chrome-extension/entrypoints/web-editor-v2/ui/property-panel/css-panel.ts:239-250 | nothing inside a quoted string, dots included, is taken for a class |
| CssIdents.ClassFound | app/chrome-extension/entrypoints/web-editor-v2/ui/property-panel/css-panel.ts:264-276 | a dot outside brackets and quotes yields its class name, and the scan resumes after the identifier |
| CssIdents.ClassNamesExample | app/chrome-extension/entrypoints/web-editor-v2/ui/property-panel/css-panel.ts:225-280 | `.sm\:bg-red-500.foo[data-x=".bar"]` yields exactly "sm:bg-red-500" and "foo" |
| CssPanel.Suggest | app/chrome-extension/entrypoints/web-editor-v2/ui/property-panel/css-panel.ts:286-304 | suggestions are the first distinct non-empty names in order, at most the bound, and all of them when fewer |
| CssPanel.Limit | app/chrome-extension/entrypoints/web-editor-v2/ui/property-panel/css-panel.ts:295-297 | the bound is checked after a name is added, so even a zero cap admits one name |
| CssPanel.SuggestionsSound | app/chrome-extension/entrypoints/web-editor-v2/ui/property-panel/css-panel.ts:286-304 | the cache holds distinct, non-empty, trimmed names found in the snapshot's selectors, in first-seen order, and all of them when they fit |
| CssPanel.CollectClassSuggestions | app/chrome-extension/entrypoints/web-editor-v2/ui/property-panel/css-panel.ts:286-304 | the nested loops with early exit compute `Suggestions` |
| CssPanel.AddClassNames | app/chrome-extension/entrypoints/web-editor-v2/ui/property-panel/css-panel.ts:292-299 | one selector's names join the cache, and `full` reports that the bound was reached |
| CssPanel.FormatSpecificity | app/chrome-extension/entrypoints/web-editor-v2/ui/property-panel/css-panel.ts:54-57 | no specificity gives ""; otherwise the text is parenthesised |
| CssPanel.FormatSpecificityInjective | app/chrome-extension/entrypoints/web-editor-v2/ui/property-panel/css-panel.ts:54-57 | different specificities never show the same label |
| CssPanel.FormatSpecificityExample | app/chrome-extension/entrypoints/web-editor-v2/ui/property-panel/css-panel.ts:54-57 | (0, 1, 2, 3) is shown as "(0, 1, 2, 3)" |
| CssPanel.Panel.constructor | app/chrome-extension/entrypoints/web-editor-v2/ui/property-panel/css-panel.ts:445-455 | a new panel is hidden, without target, snapshot or suggestions |
| CssPanel.Panel.CollectAndRender | app/chrome-extension/entrypoints/web-editor-v2/ui/property-panel/css-panel.ts:582-607 | hidden: only a refresh is owed; detached: snapshot and cache cleared; attached: the snapshot shown and the suggestions recomputed |
| CssPanel.Panel.SetTarget | app/chrome-extension/entrypoints/web-editor-v2/ui/property-panel/css-panel.ts:613-619 | the panel and class editor follow the element, and the styles are collected |
| CssPanel.Panel.Refresh | app/chrome-extension/entrypoints/web-editor-v2/ui/property-panel/css-panel.ts:621-625 | the class editor refreshes once, and the styles are collected again |
| CssPanel.Panel.SetVisible | app/chrome-extension/entrypoints/web-editor-v2/ui/property-panel/css-panel.ts:627-636 | showing a panel that owes a refresh collects now; otherwise nothing but visibility changes |
| CssPanel.Panel.Dispose | app/chrome-extension/entrypoints/web-editor-v2/ui/property-panel/css-panel.ts:638-647 | target, snapshot and cache are dropped for good |
| CssPanel.Panel.CommitClasses | app/chrome-extension/entrypoints/web-editor-v2/ui/property-panel/css-panel.ts:494-508 | the class list is written, as an undoable entry from the element's `classList` before the write to the new list when a manager exists; the editor gets the `classList` read back and the owner is notified |
| CssPanel.Panel.ClassChange | app/chrome-extension/entrypoints/web-editor-v2/ui/property-panel/css-panel.ts:490-512 | without an attached target nothing changes; otherwise the classes are written (undoably, from the `classList` before) and the `classList` read back, and the styles collected again |
| Props.DangerousKeyTrimmed | app/chrome-extension/entrypoints/web-editor-v2/ui/property-panel/props-panel.ts:66-68 | white space around a key never changes the verdict |
| Props.DangerousKeyExamples | app/chrome-extension/entrypoints/web-editor-v2/ui/property-panel/props-panel.ts:52-68 | "__proto__" is denied; "proto" and "Constructor" are not |
| Props.FormatDecReadsBack | app/chrome-extension/entrypoints/web-editor-v2/ui/property-panel/props-panel.ts:141-158 | the text `String(n)` writes for a finite number is accepted as a number input and reads as that number |
| Props.ParseNumberInputSound | app/chrome-extension/entrypoints/web-editor-v2/ui/property-panel/props-panel.ts:141-158 | a number input is accepted exactly when its trim is a number literal, so never when blank |
| Props.ParseNumberLiteral | app/chrome-extension/entrypoints/web-editor-v2/ui/property-panel/props-panel.ts:141-158 | an accepted trailing-point input stands for the literal's value |
| Props.ParseTrailingDot | app/chrome-extension/entrypoints/web-editor-v2/ui/property-panel/props-panel.ts:148-152 | "10." stands for the integer before the point |
| Props.IntegerPart | app/chrome-extension/entrypoints/web-editor-v2/ui/property-panel/props-panel.ts:148-152 | the value of a trailing-point literal is a whole number |
| Props.Either | app/chrome-extension/entrypoints/web-editor-v2/ui/property-panel/props-panel.ts:160-174 | `next ?? prev`: the later field wins when present |
| Props.MergeResponseDataSound | app/chrome-extension/entrypoints/web-editor-v2/ui/property-panel/props-panel.ts:160-174 | the later response wins field by field, and `meta` merges key by key with later keys winning |
| Props.MergeResponseDataAssociative | app/chrome-extension/entrypoints/web-editor-v2/ui/property-panel/props-panel.ts:160-174 | merging three responses gives the same data however the merges are grouped |
| Props.MergeKeepsGates | app/chrome-extension/entrypoints/web-editor-v2/ui/property-panel/props-panel.ts:207-213 | a response silent on capabilities and refresh keeps both read and write gates |
| Props.StatusPartsOrder | app/chrome-extension/entrypoints/web-editor-v2/ui/property-panel/props-panel.ts:176-205 | the status line names read and write first, then the hook status when there is one |
| Props.StatusPartsFlags | app/chrome-extension/entrypoints/web-editor-v2/ui/property-panel/props-panel.ts:176-205 | "needs refresh" and "error" appear exactly when a refresh is pending or an error exists |
| Props.JsonEscapeRoundTrip | app/chrome-extension/entrypoints/web-editor-v2/ui/property-panel/props-panel.ts:85-87 | a string shown as JSON reads back as itself |
| Props.FormatStringReadsBack | app/chrome-extension/entrypoints/web-editor-v2/ui/property-panel/props-panel.ts:85-87 | a whole string value is shown as its JSON literal, which reads back to it |
| Props.FormatDomElementShape | app/chrome-extension/entrypoints/web-editor-v2/ui/property-panel/props-panel.ts:102-109 | an element is shown as its lower-cased tag, "element" when missing, in angle brackets |
| Props.DomTag | app/chrome-extension/entrypoints/web-editor-v2/ui/property-panel/props-panel.ts:103 | a missing or empty tag shows "element"; any other tag shows its letters lower-cased, with the same length |
| Props.EnumChoices | app/chrome-extension/entrypoints/web-editor-v2/ui/property-panel/props-panel.ts:523-530 | the enum values offered are exactly the given, non-blank strings |
| Props.EnumOptionsSound | app/chrome-extension/entrypoints/web-editor-v2/ui/property-panel/props-panel.ts:523-565 | the select lists no value twice, lists the current value (first when the enum lacks it), and otherwise only non-blank enum values |
| Props.RowControlGuards | app/chrome-extension/entrypoints/web-editor-v2/ui/property-panel/props-panel.ts:462-622 | a denied key is shown read-only and marked "(blocked)", a read-only entry gets no editing control, and an enum select needs a string value with choices |
| Props.FirstEntry | app/chrome-extension/entrypoints/web-editor-v2/ui/property-panel/props-panel.ts:215-219 | the position found is the first entry with the key, or the end when there is none |
| PropsPanel.FindEntry | app/chrome-extension/entrypoints/web-editor-v2/ui/property-panel/props-panel.ts:215-219 | an entry found has the key, and nothing found means no entry of the last response has it |
| PropsPanel.ScheduledSound | app/chrome-extension/entrypoints/web-editor-v2/ui/property-panel/props-panel.ts:404-411 | scheduling leaves one entry for the key with the latest value, and every other key's pending value as it was |
| PropsPanel.WithoutValue | app/chrome-extension/entrypoints/web-editor-v2/ui/property-panel/props-panel.ts:389-394 | cancelling a key leaves no entry for it and keeps every other key's value |
| PropsPanel.WithoutMembers | app/chrome-extension/entrypoints/web-editor-v2/ui/property-panel/props-panel.ts:389-394 | cancelling keeps exactly the entries of the other keys |
| PropsPanel.PendingValueFound | app/chrome-extension/entrypoints/web-editor-v2/ui/property-panel/props-panel.ts:396-402 | a key has a pending value exactly when some entry has that key |
| PropsPanel.Keys | app/chrome-extension/entrypoints/web-editor-v2/ui/property-panel/props-panel.ts:374-385 | the table's keys in the order they were scheduled |
| PropsPanel.CommitOutcomeGuards | app/chrome-extension/entrypoints/web-editor-v2/ui/property-panel/props-panel.ts:694-713 | a write is sent only for a live target, an allowed key and writable data; a denied key and unwritable data are each reported |
| PropsPanel.SendsOnlyWrites | app/chrome-extension/entrypoints/web-editor-v2/ui/property-panel/props-panel.ts:374-385 | flushing the table sends only writes of allowed keys to the live target, in the current session |
| PropsPanel.SendsEach | app/chrome-extension/entrypoints/web-editor-v2/ui/property-panel/props-panel.ts:374-385 | with writing allowed, flushing sends exactly one write per entry, in table order, with its key and value |
| PropsPanel.ReplyError | app/chrome-extension/entrypoints/web-editor-v2/ui/property-panel/props-panel.ts:715-734 | after a reply the error is the thrown message, or the failure message, or unchanged on success |
| PropsPanel.StartFetchSound | app/chrome-extension/entrypoints/web-editor-v2/ui/property-panel/props-panel.ts:638-657 | a fetch sends at most one probe of the live target in the current session, and only while shown; hidden, it owes a fetch |
| PropsPanel.Panel.Live | app/chrome-extension/entrypoints/web-editor-v2/ui/property-panel/props-panel.ts:646-656 | writes and fetches go to the target exactly while it is attached and the panel not disposed |
| PropsPanel.Panel.constructor | app/chrome-extension/entrypoints/web-editor-v2/ui/property-panel/props-panel.ts:279-290 | a new panel is hidden, without target or data, in session 0, with no pending writes |
| PropsPanel.Panel.CancelPendingWrite | app/chrome-extension/entrypoints/web-editor-v2/ui/property-panel/props-panel.ts:389-394 | the key's entry is deleted from the table |
| PropsPanel.Panel.ClearAllPendingWrites | app/chrome-extension/entrypoints/web-editor-v2/ui/property-panel/props-panel.ts:363-368 | the table is emptied |
| PropsPanel.Panel.ScheduleWrite | app/chrome-extension/entrypoints/web-editor-v2/ui/property-panel/props-panel.ts:404-411 | the table becomes `Scheduled`: the old entry for the key is dropped and the new one added last |
| PropsPanel.Panel.CommitWrite | app/chrome-extension/entrypoints/web-editor-v2/ui/property-panel/props-panel.ts:694-713 | the request log and the error follow `CommitOutcome` |
| PropsPanel.Panel.FlushPendingWrite | app/chrome-extension/entrypoints/web-editor-v2/ui/property-panel/props-panel.ts:396-402 | the key's pending value, if any, is deleted and committed now |
| PropsPanel.Panel.FireTimer | app/chrome-extension/entrypoints/web-editor-v2/ui/property-panel/props-panel.ts:406-409 | a firing timer deletes its key's entry and commits its value |
| PropsPanel.Panel.FlushAllPendingWrites | app/chrome-extension/entrypoints/web-editor-v2/ui/property-panel/props-panel.ts:374-385 | the table is emptied, and every entry it held is committed once, in scheduling order |
| PropsPanel.Panel.ProbeAndRead | app/chrome-extension/entrypoints/web-editor-v2/ui/property-panel/props-panel.ts:638-657 | the panel's state and requests follow `StartFetch` |
| PropsPanel.Panel.ProbeDone | app/chrome-extension/entrypoints/web-editor-v2/ui/property-panel/props-panel.ts:658-680 | a stale reply changes nothing; otherwise the data is merged, and a read is asked for only when the probe allows reading |
| PropsPanel.Panel.ReadDone | app/chrome-extension/entrypoints/web-editor-v2/ui/property-panel/props-panel.ts:681-690 | a stale reply changes nothing; otherwise the data is merged, any failure reported and loading ended |
| PropsPanel.Panel.WriteDone | app/chrome-extension/entrypoints/web-editor-v2/ui/property-panel/props-panel.ts:715-734 | a stale reply changes nothing; success clears the error and shows the written value; failure reports it |
| PropsPanel.Panel.UpdateLocalPrimitiveSnapshot | app/chrome-extension/entrypoints/web-editor-v2/ui/property-panel/props-panel.ts:245-268 | the first entry with the key takes the written value |
| PropsPanel.Panel.ResetOverrides | app/chrome-extension/entrypoints/web-editor-v2/ui/property-panel/props-panel.ts:737-750 | without a live target nothing; otherwise pending writes dropped, error cleared, loading started and the reset requested |
| PropsPanel.Panel.ResetDone | app/chrome-extension/entrypoints/web-editor-v2/ui/property-panel/props-panel.ts:751-769 | a stale reply changes nothing; otherwise the data is merged, and the props are fetched again |
| PropsPanel.Panel.SetTarget | app/chrome-extension/entrypoints/web-editor-v2/ui/property-panel/props-panel.ts:974-997 | pending writes go to the old target in the old session; then a new session starts on the new target with cleared data |
| PropsPanel.Panel.Follow | app/chrome-extension/entrypoints/web-editor-v2/ui/property-panel/props-panel.ts:980-996 | the session advances, the attached element is taken, and a fetch is made or owed |
| PropsPanel.Panel.Refresh | app/chrome-extension/entrypoints/web-editor-v2/ui/property-panel/props-panel.ts:999-1003 | pending writes are dropped and the props fetched again |
| PropsPanel.Panel.SetVisible | app/chrome-extension/entrypoints/web-editor-v2/ui/property-panel/props-panel.ts:1005-1011 | showing the panel runs the fetch it owes; otherwise only visibility changes |
| PropsPanel.Panel.Dispose | app/chrome-extension/entrypoints/web-editor-v2/ui/property-panel/props-panel.ts:1013-1021 | target, data and every pending write are dropped for good |
| PropsPanel.Panel.RefreshClick | app/chrome-extension/entrypoints/web-editor-v2/ui/property-panel/props-panel.ts:820-836 | pending writes are dropped; early injection is requested when the hook state calls for it, else the props are fetched |
| PropsPanel.Panel.OnInput | app/chrome-extension/entrypoints/web-editor-v2/ui/property-panel/props-panel.ts:844-881 | typed strings are scheduled; parsed numbers too; a malformed number drops its pending write and is marked invalid unless blank |
| PropsPanel.Panel.OnSelectChange | app/chrome-extension/entrypoints/web-editor-v2/ui/property-panel/props-panel.ts:883-900 | an enabled enum select with an allowed key writes its value at once |
| PropsPanel.Panel.OnCheckboxChange | app/chrome-extension/entrypoints/web-editor-v2/ui/property-panel/props-panel.ts:901-914 | an enabled boolean checkbox with an allowed key writes its state at once |
| PropsPanel.Panel.OnEnter | app/chrome-extension/entrypoints/web-editor-v2/ui/property-panel/props-panel.ts:916-968 | Enter outside IME composition flushes the key's pending write, then the blur's focusout clears a blank or malformed number and restores it from the last response |
| PropsPanel.InputFromEntryRestores | app/chrome-extension/entrypoints/web-editor-v2/ui/property-panel/props-panel.ts:221-243 | a string entry is shown unchanged, a boolean as the checkbox state, a finite number as text that reads back as that number, otherwise its special name or nothing |
| PropsPanel.Panel.OnEscape | app/chrome-extension/entrypoints/web-editor-v2/ui/property-panel/props-panel.ts:934-945 | Escape drops the pending write and restores the input from the last response |
| PropsPanel.Panel.OnFocusOut | app/chrome-extension/entrypoints/web-editor-v2/ui/property-panel/props-panel.ts:947-968 | a blank or malformed number is discarded and restored; any other input flushes its pending write |
| PropsPanel.EnumOptionList | app/chrome-extension/entrypoints/web-editor-v2/ui/property-panel/props-panel.ts:523-565 | the loop builds `EnumOptions`, and selects the current value when there is one |
| PropsPanel.AppendUnseen | app/chrome-extension/entrypoints/web-editor-v2/ui/property-panel/props-panel.ts:545-560 | each unseen value joins the options once, in order |
| UiNodes.RegistryKeys | app/chrome-extension/entrypoints/popup/components/builder/model/ui-nodes.ts:240-242 | the registry has a key for each type of the list and no other |
| UiNodes.RegistryValues | app/chrome-extension/entrypoints/popup/components/builder/model/ui-nodes.ts:240-242 | the registry maps each type to a node of the list with that type |
| UiNodes.RegistryDistinct | app/chrome-extension/entrypoints/popup/components/builder/model/ui-nodes.ts:240-242 | with distinct types, the registry maps each node's type to that node |
| UiNodes.NodeUIListShape | app/chrome-extension/entrypoints/popup/components/builder/model/ui-nodes.ts:50-238 | the list has 23 nodes, none in the Page category |
| UiNodes.NodeUIListDistinct | app/chrome-extension/entrypoints/popup/components/builder/model/ui-nodes.ts:50-238 | no two nodes of the list share a type |
| UiNodes.NodeUIRegistrySound | app/chrome-extension/entrypoints/popup/components/builder/model/ui-nodes.ts:240-242 | `NODE_UI_REGISTRY` maps each listed node's type to that node, and knows no other type |
| UiNodes.Types | app/chrome-extension/entrypoints/popup/components/builder/model/ui-nodes.ts:240-242 | the types of the list, position by position |
| UiNodes.ListByCategory | app/chrome-extension/entrypoints/popup/components/builder/model/ui-nodes.ts:246-256 | every category gets a list, namely the list's nodes of that category |
| UiNodes.InCategoryOrdered | app/chrome-extension/entrypoints/popup/components/builder/model/ui-nodes.ts:246-256 | each category's list keeps the order of the node list |
| UiNodes.InCategoryCounts | app/chrome-extension/entrypoints/popup/components/builder/model/ui-nodes.ts:246-256 | each category's list holds its nodes as often as the list does, and no other node |
| UiNodes.InCategoryLengths | app/chrome-extension/entrypoints/popup/components/builder/model/ui-nodes.ts:244-256 | the five category lists together are as long as the list |
| UiNodes.PageIsEmpty | app/chrome-extension/entrypoints/popup/components/builder/model/ui-nodes.ts:244-256 | the Page category is empty, and the other four hold all 23 nodes |
| UiNodes.CanvasTypeKey | app/chrome-extension/entrypoints/popup/components/builder/model/ui-nodes.ts:258-261 | the canvas key is "rr-" followed by the type's name |
| UiNodes.TypeNameRoundTrip | app/chrome-extension/entrypoints/popup/components/builder/model/ui-nodes.ts:50-238 | every type string of the list reads back as its node type |
| UiNodes.TypeNameInjective | app/chrome-extension/entrypoints/popup/components/builder/model/ui-nodes.ts:50-238 | different node types are spelt differently |
| UiNodes.CanvasTypeKeyInjective | app/chrome-extension/entrypoints/popup/components/builder/model/ui-nodes.ts:258-261 | two types share a canvas key exactly when they are the same type |

## Left out

- Deviation: strings are sequences of Unicode scalar values, not UTF-16 units. The scanned
  operations behave alike under that view, with one exception: a CSS hex escape naming a
  surrogate code point gives a lone surrogate in JavaScript and U+FFFD here (`CodePointChar`).
  Likewise, `JSON.stringify` of a lone surrogate is not modelled.
- Lower-casing is ASCII only. In units and colours its results are compared only with ASCII
  text ("px" and hex digits).
- Props.DomTag: non-ASCII letters of the tag are not lower-cased, where `toLowerCase` folds
  every letter. Its contract states the ASCII folding only.
- Numbers are exact decimals. Floating-point rounding, `Infinity`, and exponent formatting of
  very large or very small numbers are left out.
- The transaction manager, the class editor and the CSS snapshot collector are not part of this model.
  `TransactionManager` and the panel's editor fields are modelled from how the panels use
  them. The snapshot is a parameter of the methods that collect.
- `MAX_SUGGESTION_CACHE` is defined in the class editor, which is not part of this model. It is the
  parameter `cap`.
- Timers, the bridge and messaging are modelled as events and requests, as described above.
  - The debounce timer firing is the event `FireTimer`.
  - `registerEarlyInjectionAndReload`, its messaging and its confirmation dialog become one
    `EarlyInjection` request.
  - The page locator of the props bridge is the element itself.
- Rendering is not modelled: DOM construction, markup, icons, labels, the status and meta text
  layout, and the CSS panel's rule rendering. The values these are built from (status parts,
  row controls, enum options, value text) are modelled.
- Focus is a field of the control, and IME composition a flag of the event.
  Shadow-DOM-aware focus detection and pointer capture are not modelled.
- ColorFields.ResolveDisplayColor: the browser's colour parsing on the probe element is an
  abstract map `probe`. The exception path of the probe is the same as rejection.
- CssIdents.UnescapeCssIdentifier: a hex escape beyond U+10FFFF is modelled as written: the
  digits are dropped and the next character kept (`UnescapeBeyondUnicode`).
- Props.FormatDomElementShape: a `className` of white space only yields the tag followed by
  a bare "." (as written). Its contract states the shape of the text only.
- The type union of the record-replay module is not part of this model.
  `NodeType` holds the 23 types of the node list, and `TypeName` spells them as the list does.
- PropsPanel.Panel.ScheduleWrite: requires a panel that is not disposed. Only the input listener
  schedules writes, and that listener is removed on dispose.
- PropsPanel.Panel.ResetDone: a failed reset's "Props reset failed" error is cleared again by the
  fetch that follows, whenever the panel is shown and attached. This is modelled as the code is written.
- Vue components (`NodeCard`, `NodeIf`, the property panels) are opaque tokens.
  `PropExecuteFlow` is imported but unused, and so is not modelled.
- Context files hold no behaviour of this core and are not part of the model: the agent
  message types, the engine types, the MCP server setup, the test configuration and the
  controls' index.
