/**
 * A style control: the size, spacing, position, layout and appearance controls share this
 * state and these operations. Each property has one field and at most one open style
 * transaction; edits preview through the transaction, Enter and blur commit, Escape rolls
 * back. A field that is being edited is not overwritten by a sync unless the sync is forced.
 * Once disposed, the control's listeners are gone and no event changes anything.
 */
module StyleControls {
  import opened Text
  import opened Wrappers
  import opened Numbers
  import opened Lengths
  import opened ColorFields
  import opened Dom
  import opened Transactions
  import opened FieldSync

  /** The transaction each property holds, given the handles and the manager's open transactions. */
  function HeldTxns(handles: map<Prop, nat>, open: map<nat, Txn>): (r: map<Prop, Txn>)
    ensures r.Keys <= handles.Keys
    ensures forall p :: p in handles && handles[p] in open ==> p in r && r[p] == open[handles[p]]
  {
    map p | p in handles && handles[p] in open :: open[handles[p]]
  }

  /** No two properties share a handle when each handle names a transaction of its own property. */
  ghost predicate OwnHandles(handles: map<Prop, nat>, open: map<nat, Txn>) {
    forall p :: p in handles ==> handles[p] in open && open[handles[p]].prop == p
  }

  /** The handles, the manager's open transactions and its history, as commits change them. */
  datatype Held = Held(handles: map<Prop, nat>, open: map<nat, Txn>, history: seq<Entry>)

  /** `commitTransaction(p)` on these values: the handle cleared, then its transaction committed. */
  function CommitOne(s: Held, p: Prop, inline: map<(Elem, Prop), string>): (r: Held)
    ensures r.handles == s.handles - {p}
    ensures OwnHandles(s.handles, s.open) ==> OwnHandles(r.handles, r.open)
  {
    if p in s.handles then
      var h := s.handles[p];
      var history := if h in s.open then s.history + [CommitEntry(s.open[h], Lookup(inline, (s.open[h].elem, s.open[h].prop)))]
                     else s.history;
      Held(s.handles - {p}, s.open - {h}, history)
    else Held(s.handles - {p}, s.open, s.history)
  }

  /** `commitTransaction` for each property of `ps` in turn. */
  function CommitEach(s: Held, ps: seq<Prop>, inline: map<(Elem, Prop), string>): (r: Held)
    decreases |ps|
  {
    if ps == [] then s else CommitEach(CommitOne(s, ps[0], inline), ps[1..], inline)
  }

  /** Committing the listed properties clears exactly their handles and leaves the others alone. */
  lemma {:induction false} CommitEachHandles(s: Held, ps: seq<Prop>, inline: map<(Elem, Prop), string>)
    requires OwnHandles(s.handles, s.open)
    ensures var r := CommitEach(s, ps, inline);
      && OwnHandles(r.handles, r.open)
      && (forall q :: q in r.handles <==> q in s.handles && q !in ps)
      && (forall q :: q in r.handles ==> r.handles[q] == s.handles[q])
    decreases |ps|
  {
    if ps != [] {
      CommitEachHandles(CommitOne(s, ps[0], inline), ps[1..], inline);
      assert ps == [ps[0]] + ps[1..];
    }
  }

  /** Committing the listed properties records `CommitEntries` for them, in their order. */
  lemma {:induction false} CommitEachHistory(s: Held, ps: seq<Prop>, inline: map<(Elem, Prop), string>)
    requires OwnHandles(s.handles, s.open)
    ensures CommitEach(s, ps, inline).history == s.history + CommitEntries(ps, HeldTxns(s.handles, s.open), inline)
    decreases |ps|
  {
    if ps != [] {
      var p := ps[0];
      var s1 := CommitOne(s, p, inline);
      CommitEachHistory(s1, ps[1..], inline);
      if p in s.handles {
        var t := s.open[s.handles[p]];
        assert HeldTxns(s1.handles, s1.open) == HeldTxns(s.handles, s.open) - {p};
        AppendOne(s.history, CommitEntry(t, Lookup(inline, (t.elem, t.prop))),
          CommitEntries(ps[1..], HeldTxns(s1.handles, s1.open), inline));
      } else {
        assert s1.handles == s.handles;
      }
    }
  }

  /** Committing the listed properties closes exactly the transactions whose handles it cleared. */
  lemma {:induction false} CommitEachOpen(s: Held, ps: seq<Prop>, inline: map<(Elem, Prop), string>)
    requires OwnHandles(s.handles, s.open)
    ensures var r := CommitEach(s, ps, inline); r.open == s.open - (s.handles.Values - r.handles.Values)
    decreases |ps|
  {
    if ps != [] {
      var p := ps[0];
      var s1 := CommitOne(s, p, inline);
      var r := CommitEach(s1, ps[1..], inline);
      CommitEachOpen(s1, ps[1..], inline);
      CommitEachHandles(s1, ps[1..], inline);
      assert r.handles.Values <= s1.handles.Values by {
        forall v | v in r.handles.Values ensures v in s1.handles.Values {
          var q :| q in r.handles && r.handles[q] == v;
          assert s1.handles[q] == v;
        }
      }
      if p in s.handles {
        OwnValuesWithout(s.handles, s.open, p);
      } else {
        assert s1.handles == s.handles;
      }
    }
  }

  /** Committing every property that holds a handle clears them all and closes exactly their transactions. */
  lemma CommitEachAll(s: Held, ps: seq<Prop>, inline: map<(Elem, Prop), string>)
    requires OwnHandles(s.handles, s.open)
    requires forall q :: q in s.handles ==> q in ps
    ensures var r := CommitEach(s, ps, inline);
      && r.handles == map[]
      && r.open == s.open - s.handles.Values
      && r.history == s.history + CommitEntries(ps, HeldTxns(s.handles, s.open), inline)
  {
    var r := CommitEach(s, ps, inline);
    CommitEachHandles(s, ps, inline);
    CommitEachHistory(s, ps, inline);
    CommitEachOpen(s, ps, inline);
    assert r.handles.Keys == {};
  }

  /** Appending one entry and then the rest is appending both. */
  lemma AppendOne<T>(a: seq<T>, e: T, x: seq<T>)
    ensures (a + [e]) + x == a + ([e] + x)
  {
  }

  /** Under `OwnHandles`, removing a property removes its handle and no other from the values. */
  lemma OwnValuesWithout(handles: map<Prop, nat>, open: map<nat, Txn>, p: Prop)
    requires OwnHandles(handles, open) && p in handles
    ensures (handles - {p}).Values == handles.Values - {handles[p]}
  {
    forall v | v in handles.Values && v != handles[p] ensures v in (handles - {p}).Values {
      var q :| q in handles && handles[q] == v;
      assert (handles - {p})[q] == v;
    }
  }

  /** A pointer press on a spacing field; `scrubbing` once it has moved past the threshold. */
  datatype Scrub = Scrub(prop: Prop, startX: int, startValue: Dec, scrubbing: bool)

  method NewControl(control: ControlType, tm: TransactionManager, probe: map<string, string>) returns (c: StyleControl)
    requires tm.Valid()
    ensures fresh(c) && c.Valid() && c.control == control && c.tm == tm && c.probe == probe
    ensures c.props == Props(control) && c.kinds == KindMap(control)
    ensures !c.disposed && c.target == None && c.handles == map[] && c.focused == None && c.scrub == None
    ensures c.widgets == SyncedFields(c.kinds, FreshFields(c.kinds, probe), c.props, c.CurrentPage(), c.handles.Keys, c.focused, probe)
    ensures control == Layout ==> c.hidden == RowsHidden(Shown(c.widgets["display"]))
  {
    c := new StyleControl(control, tm, probe);
    c.SyncAll();
  }

  class StyleControl {
    const control: ControlType
    const tm: TransactionManager
    /** The browser's colour parser, as the colour fields' probe element sees it. */
    const probe: map<string, string>
    /** The properties in the order the control's loops visit them. */
    const props: seq<Prop>
    /** The widget kind of each property, fixed when the fields are built. */
    const kinds: map<Prop, Kind>
    var disposed: bool
    var target: Option<Elem>
    /** The open transaction of each property that has one (`field.handle`). */
    var handles: map<Prop, nat>
    var widgets: map<Prop, Widget>
    var focused: Option<Prop>
    /** The layout control's rows and whether each is hidden. */
    var hidden: Rows
    var scrub: Option<Scrub>

    /** Every property has one field of its kind. */
    ghost predicate FieldsValid()
      reads this
    {
      && Distinct(props)
      && (forall p :: p in kinds <==> p in props)
      && widgets.Keys == kinds.Keys
      && AllFit(kinds, widgets)
      && (focused.Some? ==> focused.value in widgets)
      && (scrub.Some? ==> scrub.value.prop in widgets && kinds[scrub.value.prop].TextKind?)
      && (control == Layout ==> "display" in widgets)
    }

    /**
     * Every handle is an open transaction of the current target for its own property; so two
     * properties never share a handle.
     */
    ghost predicate HandlesValid()
      reads this, tm
    {
      && tm.Valid()
      && (forall p :: p in handles ==>
            p in kinds && target.Some? && handles[p] in tm.open
            && tm.open[handles[p]].elem == target.value && tm.open[handles[p]].prop == p)
    }

    ghost predicate Valid()
      reads this, tm
    {
      FieldsValid() && HandlesValid()
    }

    /** The target and the styles the fields are synced from. */
    function CurrentPage(): Page
      reads this`target, tm.doc
    {
      Page(target, tm.doc.inline, tm.doc.computed, tm.doc.connected)
    }

    /** `field.handle !== null || isFieldFocused(...)`. */
    predicate Editing(p: Prop)
      reads this`handles, this`focused
    {
      EditingIn(handles.Keys, focused, p)
    }

    /** A new control has fresh fields and no target, and its initial sync disables them all. */
    constructor (control: ControlType, tm: TransactionManager, probe: map<string, string>)
      requires tm.Valid()
      ensures Valid() && this.control == control && this.tm == tm && this.probe == probe
      ensures props == Props(control) && kinds == KindMap(control)
      ensures !disposed && target == None && handles == map[] && focused == None && scrub == None
      ensures widgets == FreshFields(kinds, probe)
    {
      var ps := Props(control);
      var ks := KindMap(control);
      PropsDistinct(control);
      this.control := control;
      this.tm := tm;
      this.probe := probe;
      props := ps;
      kinds := ks;
      disposed, target, handles, focused, scrub := false, None, map[], None, None;
      hidden := Rows(false, false, false, false, false);
      widgets := FreshFields(ks, probe);
      new;
      assert control == Layout ==> "display" in ps by {
        if control == Layout {
          assert ps[0] == "display";
        }
      }
    }

    /** `syncField(p, force)`. */
    method SyncField(p: Prop, force: bool)
      requires Valid() && p in widgets
      modifies this`widgets
      ensures Valid()
      ensures widgets == old(widgets)[p := Synced(kinds[p], old(widgets)[p], PageView(CurrentPage(), p), Editing(p), force, probe)]
    {
      SetWidget(p, Synced(kinds[p], widgets[p], PageView(CurrentPage(), p), Editing(p), force, probe));
    }

    /** The field of `p` now shows `w`. */
    method SetWidget(p: Prop, w: Widget)
      requires Valid() && p in widgets && Fits(kinds[p], w)
      modifies this`widgets
      ensures Valid()
      ensures widgets == old(widgets)[p := w]
    {
      widgets := widgets[p := w];
    }

    /** `updateVisibility`: the layout rows follow the display select. */
    method UpdateVisibility()
      requires Valid() && control == Layout
      modifies this`hidden
      ensures Valid()
      ensures hidden == RowsHidden(Shown(widgets["display"]))
    {
      hidden := RowsHidden(Shown(widgets["display"]));
    }

    /** `syncAllFields`: every field synced without force; the layout control then updates its rows. */
    method SyncAll()
      requires Valid()
      modifies this`widgets, this`hidden
      ensures Valid()
      ensures widgets == SyncedFields(kinds, old(widgets), props, CurrentPage(), handles.Keys, focused, probe)
      ensures control == Layout ==> hidden == RowsHidden(Shown(widgets["display"]))
      ensures control != Layout ==> hidden == old(hidden)
    {
      SyncEach();
      if control == Layout {
        UpdateVisibility();
      }
    }

    /** The loop of `syncAllFields`: `syncField(p)` for each property in order. */
    method SyncEach()
      requires Valid()
      modifies this`widgets
      ensures Valid()
      ensures widgets == SyncedFields(kinds, old(widgets), props, CurrentPage(), handles.Keys, focused, probe)
    {
      ghost var pg, open := CurrentPage(), handles.Keys;
      for i := 0 to |props|
        invariant Valid()
        invariant CurrentPage() == pg && handles.Keys == open
        invariant widgets == SyncedFields(kinds, old(widgets), props[..i], pg, open, focused, probe)
      {
        assert props[..i + 1][..i] == props[..i];
        SyncField(props[i], false);
      }
      assert props[..|props|] == props;
    }
    /**
     * `beginTransaction`: nothing once disposed or without a connected target; the open handle
     * when the property has one; otherwise a new transaction capturing the inline declaration.
     */
    method BeginTransaction(p: Prop) returns (h: Option<nat>)
      requires Valid() && p in kinds
      modifies this`handles, tm
      ensures Valid()
      ensures h.Some? <==> !disposed && tm.doc.Attached(target)
      ensures h.None? ==> handles == old(handles) && tm.open == old(tm.open) && tm.next == old(tm.next)
      ensures h.Some? && p in old(handles) ==>
        h.value == old(handles)[p] && handles == old(handles) && tm.open == old(tm.open) && tm.next == old(tm.next)
      ensures h.Some? && p !in old(handles) ==>
        && h.value == old(tm.next) && handles == old(handles)[p := h.value]
        && tm.open == old(tm.open)[h.value := Txn(target.value, p, Lookup(tm.doc.inline, (target.value, p)))]
        && tm.next == old(tm.next) + 1
      ensures h.Some? ==> p in handles && handles[p] == h.value
      ensures tm.history == old(tm.history)
    {
      if disposed || !tm.doc.Attached(target) {
        return None;
      }
      if p in handles {
        return Some(handles[p]);
      }
      var n := tm.BeginStyle(target.value, p);
      handles := handles[p := n];
      h := Some(n);
    }

    /** `commitTransaction`: the handle is cleared first, then committed with merging. */
    method CommitTransaction(p: Prop)
      requires Valid()
      modifies this`handles, tm
      ensures Valid()
      ensures handles == old(handles) - {p}
      ensures p in old(handles) ==>
        var t := old(tm.open[handles[p]]);
        && tm.open == old(tm.open) - {old(handles[p])}
        && tm.history == old(tm.history) + [CommitEntry(t, Lookup(tm.doc.inline, (t.elem, t.prop)))]
      ensures p !in old(handles) ==> tm.open == old(tm.open) && tm.history == old(tm.history)
      ensures tm.next == old(tm.next)
    {
      var h := Lookup(handles, p);
      handles := handles - {p};
      if h.Some? {
        tm.Commit(h.value, true);
      }
    }

    /** `rollbackTransaction`: the handle is cleared first, then the captured declaration restored. */
    method RollbackTransaction(p: Prop)
      requires Valid()
      modifies this`handles, tm, tm.doc
      ensures Valid()
      ensures handles == old(handles) - {p}
      ensures p in old(handles) ==>
        var t := old(tm.open[handles[p]]);
        && tm.open == old(tm.open) - {old(handles[p])}
        && tm.doc.inline == Store(old(tm.doc.inline), (t.elem, t.prop), t.baseline)
      ensures p !in old(handles) ==> tm.open == old(tm.open) && tm.doc.inline == old(tm.doc.inline)
      ensures tm.history == old(tm.history) && tm.next == old(tm.next)
      ensures tm.doc.computed == old(tm.doc.computed) && tm.doc.connected == old(tm.doc.connected)
      ensures tm.doc.classAttr == old(tm.doc.classAttr)
    {
      var h := Lookup(handles, p);
      handles := handles - {p};
      if h.Some? {
        tm.Rollback(h.value);
      }
    }

    /** `commitAllTransactions`: every open transaction committed once, in property order. */
    method CommitAll()
      requires Valid()
      modifies this`handles, tm
      ensures Valid()
      ensures handles == map[]
      ensures tm.history == old(tm.history) + CommitEntries(props, HeldTxns(old(handles), old(tm.open)), tm.doc.inline)
      ensures tm.open == old(tm.open) - old(handles).Values
      ensures tm.next == old(tm.next)
    {
      ghost var inline := tm.doc.inline;
      ghost var s0 := Held(handles, tm.open, tm.history);
      assert OwnHandles(s0.handles, s0.open);
      for i := 0 to |props|
        invariant Valid()
        invariant CommitEach(Held(handles, tm.open, tm.history), props[i..], inline) == CommitEach(s0, props, inline)
        invariant tm.next == old(tm.next) && tm.doc.inline == inline
      {
        ghost var s := Held(handles, tm.open, tm.history);
        assert props[i..][0] == props[i] && props[i..][1..] == props[i + 1..];
        CommitTransaction(props[i]);
        assert Held(handles, tm.open, tm.history) == CommitOne(s, props[i], inline);
      }
      assert props[|props|..] == [];
      CommitEachAll(s0, props, inline);
    }

    /** `setTarget`: a different element commits every open transaction; then every field syncs. */
    method SetTarget(e: Option<Elem>)
      requires Valid()
      modifies this`target, this`handles, this`widgets, this`hidden, tm
      ensures Valid()
      ensures old(disposed) ==> (target == old(target) && handles == old(handles) && widgets == old(widgets)
        && hidden == old(hidden) && tm.history == old(tm.history) && tm.open == old(tm.open))
      ensures !old(disposed) ==> target == e
      ensures !old(disposed) && e != old(target) ==> (handles == map[]
        && tm.history == old(tm.history) + CommitEntries(props, HeldTxns(old(handles), old(tm.open)), tm.doc.inline))
      ensures !old(disposed) && e == old(target) ==> (handles == old(handles)
        && tm.history == old(tm.history) && tm.open == old(tm.open))
      ensures !old(disposed) ==> widgets == SyncedFields(kinds, old(widgets), props, CurrentPage(), handles.Keys, focused, probe)
      ensures !old(disposed) && control == Layout ==> hidden == RowsHidden(Shown(widgets["display"]))
    {
      if disposed {
        return;
      }
      if e != target {
        CommitAll();
      }
      target := e;
      SyncAll();
    }

    /** `refresh`: every field re-synced, unless disposed. */
    method Refresh()
      requires Valid()
      modifies this`widgets, this`hidden
      ensures Valid()
      ensures old(disposed) ==> widgets == old(widgets) && hidden == old(hidden)
      ensures !old(disposed) ==> widgets == SyncedFields(kinds, old(widgets), props, CurrentPage(), handles.Keys, focused, probe)
      ensures !old(disposed) && control == Layout ==> hidden == RowsHidden(Shown(widgets["display"]))
    {
      if disposed {
        return;
      }
      SyncAll();
    }

    /** `dispose`: every open transaction committed, the target cleared, the listeners removed. */
    method Dispose()
      requires Valid()
      modifies this`handles, this`target, this`disposed, tm
      ensures Valid()
      ensures disposed && target == None && handles == map[]
      ensures tm.history == old(tm.history) + CommitEntries(props, HeldTxns(old(handles), old(tm.open)), tm.doc.inline)
      ensures tm.open == old(tm.open) - old(handles).Values
    {
      CommitAll();
      target := None;
      disposed := true;
    }
    /**
     * The preview of an `input` event: the property's transaction, begun if need be, writes
     * `v` as the element's declaration. Without a connected target, or once disposed, nothing.
     */
    method Preview(p: Prop, v: string)
      requires Valid() && p in kinds
      modifies this`handles, tm, tm.doc
      ensures Valid()
      ensures !disposed && tm.doc.Attached(target) ==> (p in handles
        && tm.doc.inline == Store(old(tm.doc.inline), (target.value, p), Declared(v)))
      ensures !disposed && tm.doc.Attached(target) && p !in old(handles) ==>
        tm.open[handles[p]].baseline == Lookup(old(tm.doc.inline), (target.value, p))
      ensures !disposed && tm.doc.Attached(target) && p in old(handles) ==> handles == old(handles)
      ensures disposed || !tm.doc.Attached(target) ==> (handles == old(handles)
        && tm.open == old(tm.open) && tm.doc.inline == old(tm.doc.inline))
      ensures tm.history == old(tm.history)
      ensures tm.doc.computed == old(tm.doc.computed) && tm.doc.connected == old(tm.doc.connected)
    {
      var h := BeginTransaction(p);
      if h.Some? {
        tm.Set(h.value, v);
      }
    }

    /** The field takes the focus. */
    method Focus(p: Prop)
      requires Valid() && p in widgets
      modifies this`focused
      ensures Valid()
      ensures focused == if disposed then old(focused) else Some(p)
    {
      if disposed {
        return;
      }
      focused := Some(p);
    }

    /** `onCommit`, and a colour picker's `change`: the transaction is committed, every field re-synced. */
    method CommitEdit(p: Prop)
      requires Valid() && p in widgets
      modifies this`handles, this`widgets, this`hidden, tm
      ensures Valid()
      ensures disposed ==> (handles == old(handles) && widgets == old(widgets) && hidden == old(hidden)
        && tm.history == old(tm.history) && tm.open == old(tm.open))
      ensures !disposed ==> handles == old(handles) - {p}
      ensures !disposed && p in old(handles) ==> (tm.history == old(tm.history)
        + [CommitEntry(old(tm.open[handles[p]]), Lookup(tm.doc.inline, (old(tm.open[handles[p]]).elem, p)))])
      ensures !disposed && p !in old(handles) ==> tm.history == old(tm.history)
      ensures !disposed ==> widgets == SyncedFields(kinds, old(widgets), props, CurrentPage(), handles.Keys, focused, probe)
      ensures !disposed && control == Layout ==> hidden == RowsHidden(Shown(widgets["display"]))
    {
      if disposed {
        return;
      }
      CommitTransaction(p);
      SyncAll();
    }

    /**
     * `blur`: the field loses the focus, its transaction is committed and every field re-synced,
     * so the field shows what the element now holds.
     */
    method Blur(p: Prop)
      requires Valid() && p in widgets
      modifies this`focused, this`handles, this`widgets, this`hidden, tm
      ensures Valid()
      ensures disposed ==> (focused == old(focused) && handles == old(handles) && widgets == old(widgets)
        && tm.history == old(tm.history))
      ensures !disposed ==> (!Editing(p) && handles == old(handles) - {p}
        && focused == (if old(focused) == Some(p) then None else old(focused)))
      ensures !disposed && p in old(handles) ==> (tm.history == old(tm.history)
        + [CommitEntry(old(tm.open[handles[p]]), Lookup(tm.doc.inline, (old(tm.open[handles[p]]).elem, p)))])
      ensures !disposed && p !in old(handles) ==> tm.history == old(tm.history)
      ensures !disposed && tm.doc.Attached(target) ==> ShowsElement(kinds[p], widgets[p], PageView(CurrentPage(), p))
    {
      if disposed {
        return;
      }
      if focused == Some(p) {
        focused := None;
      }
      ghost var ws := widgets;
      CommitEdit(p);
      SyncedFieldsAt(kinds, ws, props, CurrentPage(), handles.Keys, focused, probe, p);
      if tm.doc.Attached(target) {
        SyncedShowsElement(kinds[p], ws[p], PageView(CurrentPage(), p), false, false, probe);
      }
    }

    /** Enter: commit and re-sync while the field keeps the focus, then blur it. */
    method KeyEnter(p: Prop)
      requires Valid() && p in widgets
      modifies this`focused, this`handles, this`widgets, this`hidden, tm
      ensures Valid()
      ensures disposed ==> (focused == old(focused) && handles == old(handles) && widgets == old(widgets)
        && tm.history == old(tm.history))
      ensures !disposed ==> handles == old(handles) - {p}
      ensures !disposed && p in old(handles) ==> (tm.history == old(tm.history)
        + [CommitEntry(old(tm.open[handles[p]]), Lookup(tm.doc.inline, (old(tm.open[handles[p]]).elem, p)))])
      ensures !disposed && p !in old(handles) ==> tm.history == old(tm.history)
      ensures !disposed && old(focused) == Some(p) ==> (focused == None
        && (tm.doc.Attached(target) ==> ShowsElement(kinds[p], widgets[p], PageView(CurrentPage(), p))))
    {
      if disposed {
        return;
      }
      CommitEdit(p);
      if focused == Some(p) {
        Blur(p);
      }
    }

    /** Escape: the transaction is rolled back and the field, focused or not, shows the element again. */
    method KeyEscape(p: Prop)
      requires Valid() && p in widgets
      modifies this`handles, this`widgets, tm, tm.doc
      ensures Valid()
      ensures disposed ==> (handles == old(handles) && widgets == old(widgets)
        && tm.open == old(tm.open) && tm.doc.inline == old(tm.doc.inline))
      ensures !disposed ==> handles == old(handles) - {p}
      ensures !disposed && p in old(handles) ==> (tm.doc.inline
        == Store(old(tm.doc.inline), (old(tm.open[handles[p]]).elem, p), old(tm.open[handles[p]]).baseline))
      ensures !disposed && p !in old(handles) ==> tm.doc.inline == old(tm.doc.inline)
      ensures !disposed ==> widgets == old(widgets)[p := Synced(kinds[p], old(widgets)[p], PageView(CurrentPage(), p), Editing(p), true, probe)]
      ensures !disposed && tm.doc.Attached(target) ==> ShowsElement(kinds[p], widgets[p], PageView(CurrentPage(), p))
      ensures tm.history == old(tm.history)
    {
      if disposed {
        return;
      }
      RollbackTransaction(p);
      ghost var w := widgets[p];
      SyncField(p, true);
      if tm.doc.Attached(target) {
        SyncedShowsElement(kinds[p], w, PageView(CurrentPage(), p), Editing(p), true, probe);
      }
    }

    /** A text field's `input` event: it shows what was typed, and previews it normalised. */
    method TextInput(p: Prop, text: string)
      requires Valid() && p in kinds && kinds[p].TextKind?
      modifies this`widgets, this`handles, tm, tm.doc
      ensures Valid()
      ensures disposed ==> (widgets == old(widgets) && handles == old(handles) && tm.doc.inline == old(tm.doc.inline))
      ensures !disposed ==> widgets == old(widgets)[p := WithValue(old(widgets)[p], text)]
      ensures !disposed && tm.doc.Attached(target) ==> (p in handles
        && tm.doc.inline == Store(old(tm.doc.inline), (target.value, p), Declared(Lengths.Normalize(kinds[p].norm, text))))
      ensures !tm.doc.Attached(target) ==> (handles == old(handles) && tm.doc.inline == old(tm.doc.inline))
      ensures tm.history == old(tm.history)
    {
      if disposed {
        return;
      }
      SetWidget(p, WithValue(widgets[p], text));
      Preview(p, Lengths.Normalize(kinds[p].norm, text));
    }

    /** A select's `input` or `change` event: it previews the chosen option; the display select also re-lays the rows. */
    method SelectInput(p: Prop, v: string)
      requires Valid() && p in kinds && kinds[p].SelectKind?
      modifies this`widgets, this`hidden, this`handles, tm, tm.doc
      ensures Valid()
      ensures disposed ==> (widgets == old(widgets) && hidden == old(hidden) && handles == old(handles)
        && tm.doc.inline == old(tm.doc.inline))
      ensures !disposed ==> widgets == old(widgets)[p := WithValue(old(widgets)[p], v)]
      ensures !disposed && tm.doc.Attached(target) ==> (p in handles
        && tm.doc.inline == Store(old(tm.doc.inline), (target.value, p), Declared(v)))
      ensures !tm.doc.Attached(target) ==> (handles == old(handles) && tm.doc.inline == old(tm.doc.inline))
      ensures !disposed && control == Layout && p == "display" ==> hidden == RowsHidden(v)
      ensures !(control == Layout && p == "display") ==> hidden == old(hidden)
      ensures tm.history == old(tm.history)
    {
      if disposed {
        return;
      }
      SetWidget(p, WithValue(widgets[p], v));
      Preview(p, v);
      if control == Layout && p == "display" {
        UpdateVisibility();
      }
    }

    /** A colour field's text `input`: the field follows the text and previews it trimmed. */
    method ColorTextInput(p: Prop, text: string)
      requires Valid() && p in kinds && kinds[p].ColorKind?
      modifies this`widgets, this`handles, tm, tm.doc
      ensures Valid()
      ensures disposed ==> (widgets == old(widgets) && handles == old(handles) && tm.doc.inline == old(tm.doc.inline))
      ensures !disposed ==> widgets == old(widgets)[p := Swatch(ValueSet(old(widgets)[p].color, text, probe))]
      ensures !disposed && tm.doc.Attached(target) ==> (p in handles
        && tm.doc.inline == Store(old(tm.doc.inline), (target.value, p), Declared(Trim(text))))
      ensures !tm.doc.Attached(target) ==> (handles == old(handles) && tm.doc.inline == old(tm.doc.inline))
      ensures tm.history == old(tm.history)
    {
      if disposed {
        return;
      }
      SetWidget(p, Swatch(ValueSet(widgets[p].color, text, probe)));
      Preview(p, Trim(text));
    }

    /** A colour picked in the native picker: the field shows it and previews it unchanged. */
    method ColorNativeInput(p: Prop, v: string)
      requires Valid() && p in kinds && kinds[p].ColorKind?
      modifies this`widgets, this`handles, tm, tm.doc
      ensures Valid()
      ensures disposed ==> (widgets == old(widgets) && handles == old(handles) && tm.doc.inline == old(tm.doc.inline))
      ensures !disposed ==> widgets == old(widgets)[p := Swatch(NativePicked(old(widgets)[p].color, v, probe))]
      ensures !disposed && tm.doc.Attached(target) ==> (p in handles
        && tm.doc.inline == Store(old(tm.doc.inline), (target.value, p), Declared(v)))
      ensures !tm.doc.Attached(target) ==> (handles == old(handles) && tm.doc.inline == old(tm.doc.inline))
      ensures tm.history == old(tm.history)
    {
      if disposed {
        return;
      }
      SetWidget(p, Swatch(NativePicked(widgets[p].color, v, probe)));
      Preview(p, v);
    }

    /** A click on a colour field's swatch opens the native picker. */
    method SwatchClick(p: Prop)
      requires Valid() && p in kinds && kinds[p].ColorKind?
      modifies this`widgets
      ensures Valid()
      ensures widgets == if disposed then old(widgets) else old(widgets)[p := Swatch(PickerOpened(old(widgets)[p].color, probe))]
    {
      if disposed {
        return;
      }
      SetWidget(p, Swatch(PickerOpened(widgets[p].color, probe)));
    }

    /**
     * `handleScrubStart`: a left-button press on a field without the focus arms a scrub from
     * the field's length, else the computed one, else 0.
     */
    method PointerDown(p: Prop, button: int, x: int)
      requires Valid() && control == Spacing && p in kinds && kinds[p].TextKind?
      modifies this`scrub
      ensures Valid()
      ensures disposed || button != 0 || focused == Some(p) ==> scrub == old(scrub)
      ensures !(disposed || button != 0 || focused == Some(p)) ==>
        scrub == Some(Scrub(p, x, ScrubStart(Shown(widgets[p]), PageView(CurrentPage(), p)), false))
    {
      if disposed || button != 0 || focused == Some(p) {
        return;
      }
      scrub := Some(Scrub(p, x, ScrubStart(Shown(widgets[p]), PageView(CurrentPage(), p)), false));
    }

    /**
     * `handleScrubMove`: once the pointer has moved past the threshold, each move previews the
     * start value plus half the distance, never below 0, in pixels.
     */
    method PointerMove(x: int)
      requires Valid()
      modifies this`scrub, this`widgets, this`handles, tm, tm.doc
      ensures Valid()
      ensures disposed || old(scrub).None? ==> (scrub == old(scrub) && widgets == old(widgets)
        && handles == old(handles) && tm.doc.inline == old(tm.doc.inline))
      ensures !disposed && old(scrub).Some? && !old(scrub).value.scrubbing && !CrossesThreshold(x - old(scrub).value.startX) ==>
        (scrub == old(scrub) && widgets == old(widgets) && handles == old(handles) && tm.doc.inline == old(tm.doc.inline))
      ensures !disposed && old(scrub).Some? && (old(scrub).value.scrubbing || CrossesThreshold(x - old(scrub).value.startX)) ==>
        var s := old(scrub).value;
        var v := ScrubValue(s.startValue, x - s.startX);
        && scrub == Some(s.(scrubbing := true))
        && (tm.doc.Attached(target) ==> (tm.doc.inline == Store(old(tm.doc.inline), (target.value, s.prop), Declared(PixelText(v)))
              && widgets == old(widgets)[s.prop := WithValue(old(widgets)[s.prop], FormatDec(v))]))
        && (!tm.doc.Attached(target) ==> widgets == old(widgets) && tm.doc.inline == old(tm.doc.inline))
      ensures tm.history == old(tm.history)
    {
      if disposed || scrub.None? {
        return;
      }
      var s := scrub.value;
      if !s.scrubbing && !CrossesThreshold(x - s.startX) {
        return;
      }
      scrub := Some(s.(scrubbing := true));
      ScrubTo(s.prop, ScrubValue(s.startValue, x - s.startX));
    }

    /** One scrub step: `v` pixels previewed through the field's transaction and shown in the field. */
    method ScrubTo(p: Prop, v: Dec)
      requires Valid() && p in kinds && kinds[p].TextKind? && !disposed
      modifies this`widgets, this`handles, tm, tm.doc
      ensures Valid()
      ensures tm.doc.Attached(target) ==> (p in handles
        && tm.doc.inline == Store(old(tm.doc.inline), (target.value, p), Declared(PixelText(v)))
        && widgets == old(widgets)[p := WithValue(old(widgets)[p], FormatDec(v))])
      ensures !tm.doc.Attached(target) ==> (widgets == old(widgets) && handles == old(handles)
        && tm.doc.inline == old(tm.doc.inline))
      ensures tm.history == old(tm.history)
    {
      var h := BeginTransaction(p);
      if h.Some? {
        tm.Set(h.value, PixelText(v));
        SetWidget(p, WithValue(widgets[p], FormatDec(v)));
      }
    }

    /**
     * `handleScrubEnd`: a scrub is committed and every field re-synced; a press that never
     * scrubbed rolls back and focuses the field instead.
     */
    method PointerUp()
      requires Valid()
      modifies this`scrub, this`focused, this`handles, this`widgets, this`hidden, tm, tm.doc
      ensures Valid()
      ensures disposed || old(scrub).None? ==> (scrub == old(scrub) && focused == old(focused)
        && handles == old(handles) && widgets == old(widgets) && tm.history == old(tm.history)
        && tm.doc.inline == old(tm.doc.inline))
      ensures !disposed && old(scrub).Some? ==> (scrub == None && handles == old(handles) - {old(scrub).value.prop})
      ensures !disposed && old(scrub).Some? && old(scrub).value.scrubbing ==> (focused == old(focused)
        && tm.doc.inline == old(tm.doc.inline)
        && widgets == SyncedFields(kinds, old(widgets), props, CurrentPage(), handles.Keys, focused, probe))
      ensures !disposed && old(scrub).Some? && old(scrub).value.scrubbing ==>
        var p := old(scrub).value.prop;
        && (p in old(handles) ==> (tm.history == old(tm.history)
          + [CommitEntry(old(tm.open[handles[p]]), Lookup(tm.doc.inline, (old(tm.open[handles[p]]).elem, p)))]))
        && (p !in old(handles) ==> tm.history == old(tm.history))
      ensures !disposed && old(scrub).Some? && !old(scrub).value.scrubbing ==> (focused == Some(old(scrub).value.prop)
        && widgets == old(widgets) && tm.history == old(tm.history))
      ensures !disposed && old(scrub).Some? && !old(scrub).value.scrubbing ==>
        var p := old(scrub).value.prop;
        && (p in old(handles) ==> (tm.doc.inline
          == Store(old(tm.doc.inline), (old(tm.open[handles[p]]).elem, p), old(tm.open[handles[p]]).baseline)))
        && (p !in old(handles) ==> tm.doc.inline == old(tm.doc.inline))
    {
      if disposed || scrub.None? {
        return;
      }
      var s := scrub.value;
      if s.scrubbing {
        CommitEdit(s.prop);
      } else {
        RollbackTransaction(s.prop);
        focused := Some(s.prop);
      }
      scrub := None;
    }
  }
}
