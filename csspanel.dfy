/**
 * The CSS panel of the property panel. It shows the rules that match the selected element,
 * keeps a cache of class suggestions drawn from the class names in the selectors of those
 * rules, lets the class editor change the element's classes, and collects the styles again
 * only while it is visible.
 */
module CssPanel {
  import opened Text
  import opened Wrappers
  import opened Dom
  import opened ClassLists
  import opened CssIdents
  import opened Transactions

  /** A rule of the snapshot: its selector text and, when known, the selector that matched. */
  datatype Rule = Rule(selector: string, matchedSelector: Option<string>)

  /** A section of the snapshot: the element's own rules, or those inherited from an ancestor. */
  datatype Section = Section(rules: seq<Rule>)

  /** What the style collector gathers for an element; only its rules matter here. */
  datatype Snapshot = Snapshot(sections: seq<Section>)

  /** `rule.matchedSelector ?? rule.selector`. */
  function RuleSelector(r: Rule): string {
    if r.matchedSelector.Some? then r.matchedSelector.value else r.selector
  }

  /** The class names of the selectors of `rules`, rule after rule. */
  function RuleNames(rules: seq<Rule>): (r: seq<string>)
    ensures forall k :: 0 <= k < |r| ==> r[k] != "" && Trimmed(r[k])
  {
    if rules == [] then [] else RuleNames(rules[..|rules| - 1]) + ClassNames(RuleSelector(rules[|rules| - 1]))
  }

  /** The class names of the selectors of every rule of `sections`, section after section. */
  function SectionNames(sections: seq<Section>): (r: seq<string>)
    ensures forall k :: 0 <= k < |r| ==> r[k] != "" && Trimmed(r[k])
  {
    if sections == [] then []
    else SectionNames(sections[..|sections| - 1]) + RuleNames(sections[|sections| - 1].rules)
  }

  /**
   * How many suggestions the cache holds at most. The bound is checked after a name is added,
   * so a bound of zero still lets the first name in.
   */
  function Limit(cap: nat): (lim: nat)
    ensures lim >= 1 && lim >= cap
    ensures cap >= 1 ==> lim == cap
  {
    if cap == 0 then 1 else cap
  }

  /** The first `lim` distinct non-empty names of `names`, in order of first occurrence. */
  function Suggest(names: seq<string>, lim: nat): (r: seq<string>)
    ensures |r| <= lim
    ensures r <= NonEmptyDistinct(names)
    ensures |r| < lim ==> r == NonEmptyDistinct(names)
  {
    var d := NonEmptyDistinct(names);
    if |d| <= lim then d else d[..lim]
  }

  /** The suggestion cache for a snapshot: the first names its selectors yield. */
  function Suggestions(snap: Snapshot, cap: nat): (r: seq<string>)
    ensures |r| <= Limit(cap)
  {
    Suggest(SectionNames(snap.sections), Limit(cap))
  }

  /**
   * The cache holds distinct, non-empty, trimmed class names, each one found in a selector
   * of the snapshot, in the order they are first met, and every such name when there are no
   * more than `Limit(cap)` of them.
   */
  lemma SuggestionsSound(snap: Snapshot, cap: nat)
    ensures var r := Suggestions(snap, cap);
      && (forall j, k :: 0 <= j < k < |r| ==> r[j] != r[k])
      && (forall k :: 0 <= k < |r| ==> r[k] != "" && Trimmed(r[k]) && r[k] in SectionNames(snap.sections))
      && r <= NonEmptyDistinct(SectionNames(snap.sections))
      && (|NonEmptyDistinct(SectionNames(snap.sections))| <= Limit(cap) ==>
            forall x :: x in SectionNames(snap.sections) && x != "" ==> x in r)
  {
    var all := SectionNames(snap.sections);
    var d := NonEmptyDistinct(all);
    var r := Suggestions(snap, cap);
    forall k | 0 <= k < |r| ensures r[k] != "" && Trimmed(r[k]) && r[k] in all {
      assert r[k] == d[k];
      assert d[k] in d;
      var i :| 0 <= i < |all| && all[i] == r[k];
    }
  }

  /** One more name: it is kept unless it is empty or already kept. */
  lemma NonEmptyDistinctStep(xs: seq<string>, x: string)
    ensures NonEmptyDistinct(xs + [x]) ==
      if x == "" || x in NonEmptyDistinct(xs) then NonEmptyDistinct(xs) else NonEmptyDistinct(xs) + [x]
  {
    assert (xs + [x])[..|xs|] == xs;
  }

  /** Once a prefix holds `lim` distinct names, what follows it changes no suggestion. */
  lemma SuggestExtend(prefix: seq<string>, all: seq<string>, lim: nat)
    requires prefix <= all && |NonEmptyDistinct(prefix)| >= lim
    ensures |NonEmptyDistinct(all)| >= lim
    ensures Suggest(all, lim) == Suggest(prefix, lim)
  {
    assert prefix + all[|prefix|..] == all;
    NonEmptyDistinctPrefix(prefix, all[|prefix|..]);
  }

  lemma RuleNamesStep(rules: seq<Rule>, i: nat)
    requires i < |rules|
    ensures RuleNames(rules[..i + 1]) == RuleNames(rules[..i]) + ClassNames(RuleSelector(rules[i]))
  {
    assert rules[..i + 1][..i] == rules[..i];
  }

  lemma SectionNamesStep(sections: seq<Section>, i: nat)
    requires i < |sections|
    ensures SectionNames(sections[..i + 1]) == SectionNames(sections[..i]) + RuleNames(sections[i].rules)
  {
    assert sections[..i + 1][..i] == sections[..i];
  }

  lemma {:induction false} RuleNamesPrefix(rules: seq<Rule>, i: nat)
    requires i <= |rules|
    ensures RuleNames(rules[..i]) <= RuleNames(rules)
  {
    if i < |rules| {
      var init := rules[..|rules| - 1];
      RuleNamesPrefix(init, i);
      assert init[..i] == rules[..i];
    } else {
      assert rules[..i] == rules;
    }
  }

  lemma {:induction false} SectionNamesPrefix(sections: seq<Section>, i: nat)
    requires i <= |sections|
    ensures SectionNames(sections[..i]) <= SectionNames(sections)
  {
    if i < |sections| {
      var init := sections[..|sections| - 1];
      SectionNamesPrefix(init, i);
      assert init[..i] == sections[..i];
    } else {
      assert sections[..i] == sections;
    }
  }

  lemma AppendAssoc(a: seq<string>, b: seq<string>, c: seq<string>)
    ensures (a + b) + c == a + (b + c)
  {
  }

  lemma PrefixAppend(a: seq<string>, b: seq<string>, c: seq<string>)
    requires b <= c
    ensures a + b <= a + c
  {
    assert a + c == (a + b) + c[|b|..];
  }

  /** The names seen so far, one name further along `names`. */
  lemma NamesStep(before: seq<string>, names: seq<string>, i: nat)
    requires i < |names|
    ensures var prev := NonEmptyDistinct(before + names[..i]);
      NonEmptyDistinct(before + names[..i + 1]) ==
        if names[i] == "" || names[i] in prev then prev else prev + [names[i]]
  {
    NonEmptyDistinctStep(before + names[..i], names[i]);
    assert names[..i + 1] == names[..i] + [names[i]];
    AppendAssoc(before, names[..i], [names[i]]);
  }

  /** Once `lim` names are gathered within `names[..i]`, the rest of `names` adds none. */
  lemma NamesFull(before: seq<string>, names: seq<string>, i: nat, lim: nat)
    requires i <= |names| && |NonEmptyDistinct(before + names[..i])| == lim
    ensures |NonEmptyDistinct(before + names)| >= lim
    ensures Suggest(before + names, lim) == NonEmptyDistinct(before + names[..i])
  {
    assert names[..i] <= names;
    PrefixAppend(before, names[..i], names);
    SuggestExtend(before + names[..i], before + names, lim);
  }

  /**
   * The innermost loop of `collectClassSuggestions`: the names of one selector join the
   * cache, and `full` reports that the cache reached its bound and the collection stops.
   */
  method AddClassNames(out0: seq<string>, seen0: set<string>, names: seq<string>, cap: nat, ghost before: seq<string>)
    returns (out: seq<string>, seen: set<string>, full: bool)
    requires out0 == NonEmptyDistinct(before) && |out0| < Limit(cap)
    requires forall x :: x in seen0 <==> x in out0
    ensures forall x :: x in seen <==> x in out
    ensures !full ==> out == NonEmptyDistinct(before + names) && |out| < Limit(cap)
    ensures full ==> |NonEmptyDistinct(before + names)| >= Limit(cap) && out == Suggest(before + names, Limit(cap))
  {
    out, seen, full := out0, seen0, false;
    assert before + names[..0] == before;
    for ni := 0 to |names|
      invariant out == NonEmptyDistinct(before + names[..ni]) && |out| < Limit(cap)
      invariant forall x :: x in seen <==> x in out
    {
      var cls := names[ni];
      NamesStep(before, names, ni);
      if cls != "" && cls !in seen {
        seen := seen + {cls};
        out := out + [cls];
        if |out| >= cap {
          full := true;
          NamesFull(before, names, ni + 1, Limit(cap));
          return;
        }
      }
    }
    assert names[..|names|] == names;
  }

  /** The loop over the rules of one section of `collectClassSuggestions`. */
  method AddSectionNames(out0: seq<string>, seen0: set<string>, rules: seq<Rule>, cap: nat, ghost before: seq<string>)
    returns (out: seq<string>, seen: set<string>, full: bool)
    requires out0 == NonEmptyDistinct(before) && |out0| < Limit(cap)
    requires forall x :: x in seen0 <==> x in out0
    ensures forall x :: x in seen <==> x in out
    ensures !full ==> out == NonEmptyDistinct(before + RuleNames(rules)) && |out| < Limit(cap)
    ensures full ==> (|NonEmptyDistinct(before + RuleNames(rules))| >= Limit(cap)
      && out == Suggest(before + RuleNames(rules), Limit(cap)))
  {
    out, seen, full := out0, seen0, false;
    assert before + RuleNames(rules[..0]) == before;
    for ri := 0 to |rules|
      invariant out == NonEmptyDistinct(before + RuleNames(rules[..ri])) && |out| < Limit(cap)
      invariant forall x :: x in seen <==> x in out
    {
      var names := ExtractClassNamesFromSelector(RuleSelector(rules[ri]));
      ghost var prefix := before + RuleNames(rules[..ri]);
      out, seen, full := AddClassNames(out, seen, names, cap, prefix);
      RuleNamesStep(rules, ri);
      AppendAssoc(before, RuleNames(rules[..ri]), names);
      if full {
        RuleNamesPrefix(rules, ri + 1);
        PrefixAppend(before, RuleNames(rules[..ri + 1]), RuleNames(rules));
        SuggestExtend(prefix + names, before + RuleNames(rules), Limit(cap));
        return;
      }
    }
    assert rules[..|rules|] == rules;
  }

  /** `collectClassSuggestions` with `MAX_SUGGESTION_CACHE` as `cap`. */
  method CollectClassSuggestions(snap: Snapshot, cap: nat) returns (out: seq<string>)
    ensures out == Suggestions(snap, cap)
  {
    var sections := snap.sections;
    out := [];
    var seen: set<string> := {};
    for si := 0 to |sections|
      invariant out == NonEmptyDistinct(SectionNames(sections[..si])) && |out| < Limit(cap)
      invariant forall x :: x in seen <==> x in out
    {
      ghost var before := SectionNames(sections[..si]);
      var full;
      out, seen, full := AddSectionNames(out, seen, sections[si].rules, cap, before);
      SectionNamesStep(sections, si);
      if full {
        SectionNamesPrefix(sections, si + 1);
        SuggestExtend(SectionNames(sections[..si + 1]), SectionNames(sections), Limit(cap));
        return;
      }
    }
    assert sections[..|sections|] == sections;
  }

  /** A rule's specificity: inline, id, class and type counts. */
  datatype Specificity = Specificity(inline: nat, ids: nat, classes: nat, types: nat)

  /** `formatSpecificity`: "(i, a, b, c)", or "" when the rule has no specificity. */
  function FormatSpecificity(spec: Option<Specificity>): (r: string)
    ensures r == "" <==> spec.None?
    ensures spec.Some? ==> r[0] == '(' && r[|r| - 1] == ')'
  {
    match spec
    case None => ""
    case Some(s) =>
      "(" + (NatToString(s.inline) + (", " + (NatToString(s.ids) + (", " + (NatToString(s.classes)
        + (", " + (NatToString(s.types) + ")")))))))
  }

  /** Digits end at the first separator, so equal texts split into equal numbers. */
  lemma DigitsThenSeparator(a: string, x: string, b: string, y: string)
    requires AllDigits(a) && AllDigits(b) && a + (", " + x) == b + (", " + y)
    ensures a == b && x == y
  {
    var s := a + (", " + x);
    assert s[|a|] == ',';
    assert (b + (", " + y))[|b|] == ',';
    assert |a| == |b|;
    assert a == s[..|a|] == b;
    assert x == s[|a| + 2..] == y;
  }

  lemma NatToStringInjective(m: nat, n: nat)
    requires NatToString(m) == NatToString(n)
    ensures m == n
  {
    NatToStringRoundTrip(m);
    NatToStringRoundTrip(n);
  }

  /** Different specificities never show the same label. */
  lemma FormatSpecificityInjective(x: Option<Specificity>, y: Option<Specificity>)
    requires FormatSpecificity(x) == FormatSpecificity(y)
    ensures x == y
  {
    if x.Some? && y.Some? {
      var p, q := x.value, y.value;
      var s := FormatSpecificity(x);
      var rx := NatToString(p.inline) + (", " + (NatToString(p.ids) + (", " + (NatToString(p.classes)
        + (", " + (NatToString(p.types) + ")"))))));
      var ry := NatToString(q.inline) + (", " + (NatToString(q.ids) + (", " + (NatToString(q.classes)
        + (", " + (NatToString(q.types) + ")"))))));
      assert rx == s[1..] == ry;
      DigitsThenSeparator(NatToString(p.inline), NatToString(p.ids) + (", " + (NatToString(p.classes)
        + (", " + (NatToString(p.types) + ")")))), NatToString(q.inline), NatToString(q.ids) + (", "
        + (NatToString(q.classes) + (", " + (NatToString(q.types) + ")")))));
      DigitsThenSeparator(NatToString(p.ids), NatToString(p.classes) + (", " + (NatToString(p.types) + ")")),
        NatToString(q.ids), NatToString(q.classes) + (", " + (NatToString(q.types) + ")")));
      DigitsThenSeparator(NatToString(p.classes), NatToString(p.types) + ")", NatToString(q.classes),
        NatToString(q.types) + ")");
      var a, b := NatToString(p.types), NatToString(q.types);
      assert a + ")" == b + ")";
      assert a == (a + ")")[..|a|];
      assert |a| == |b|;
      assert b == (b + ")")[..|b|];
      NatToStringInjective(p.inline, q.inline);
      NatToStringInjective(p.ids, q.ids);
      NatToStringInjective(p.classes, q.classes);
      NatToStringInjective(p.types, q.types);
    }
  }

  lemma FormatSpecificityExample()
    ensures FormatSpecificity(Some(Specificity(0, 1, 2, 3))) == "(0, 1, 2, 3)"
  {
  }

  /**
   * The panel's state. `target` is the selected element, `snapshot` and `suggestions` what the
   * last collection found, `visible` and `needsRefresh` decide when the next collection runs.
   * The class editor is not part of this model: it exists until the panel is disposed, and
   * `editorTarget`, `editorClasses` and `editorRefreshes` record what the panel told it.
   * `notified` counts the calls of the owner's `onClassChange` callback. `cap` stands for
   * `MAX_SUGGESTION_CACHE`.
   */
  class Panel {
    const doc: Document
    const tm: Option<TransactionManager>
    const cap: nat
    var target: Option<Elem>
    var snapshot: Option<Snapshot>
    var suggestions: seq<string>
    var visible: bool
    var needsRefresh: bool
    var disposed: bool
    var editorTarget: Option<Elem>
    var editorClasses: seq<string>
    var editorRefreshes: nat
    var notified: nat

    /**
     * The suggestion cache always belongs to the snapshot on show, the transaction manager
     * edits the panel's document, and a disposed panel holds nothing.
     */
    ghost predicate Valid()
      reads this`target, this`snapshot, this`suggestions, this`visible, this`needsRefresh, this`disposed
    {
      && (tm.Some? ==> tm.value.doc == doc)
      && (snapshot.None? ==> suggestions == [])
      && (snapshot.Some? ==> suggestions == Suggestions(snapshot.value, cap))
      && (disposed ==> target.None? && snapshot.None? && !visible && !needsRefresh)
    }

    /** `createCssPanel`: hidden, without a target, with a fresh class editor. */
    constructor (doc: Document, tm: Option<TransactionManager>, cap: nat)
      requires tm.Some? ==> tm.value.doc == doc
      ensures Valid()
      ensures this.doc == doc && this.tm == tm && this.cap == cap
      ensures target.None? && snapshot.None? && suggestions == []
      ensures !visible && !needsRefresh && !disposed
      ensures editorTarget.None? && editorClasses == [] && editorRefreshes == 0 && notified == 0
    {
      this.doc, this.tm, this.cap := doc, tm, cap;
      target, snapshot, suggestions := None, None, [];
      visible, needsRefresh, disposed := false, false, false;
      editorTarget, editorClasses, editorRefreshes, notified := None, [], 0, 0;
    }

    /**
     * `collectAndRender`, with `snap` the snapshot the style collector returns for the target.
     * Hidden, the panel only notes that it needs a refresh. Without an attached target it
     * clears the snapshot, the cache and the editor's target, and leaves `needsRefresh` as it
     * was. Otherwise it shows `snap` and the cache drawn from it.
     */
    method CollectAndRender(snap: Snapshot)
      requires Valid() && !disposed
      modifies this`snapshot, this`suggestions, this`needsRefresh, this`editorTarget
      ensures Valid()
      ensures !visible ==> (needsRefresh && snapshot == old(snapshot) && suggestions == old(suggestions)
        && editorTarget == old(editorTarget))
      ensures visible && !doc.Attached(target) ==> (snapshot.None? && suggestions == []
        && needsRefresh == old(needsRefresh) && editorTarget.None?)
      ensures visible && doc.Attached(target) ==> (snapshot == Some(snap) && suggestions == Suggestions(snap, cap)
        && !needsRefresh && editorTarget == old(editorTarget))
    {
      if !visible {
        needsRefresh := true;
        return;
      }
      if !doc.Attached(target) {
        snapshot := None;
        suggestions := [];
        editorTarget := None;
        return;
      }
      snapshot := Some(snap);
      suggestions := CollectClassSuggestions(snap, cap);
      needsRefresh := false;
    }

    /** `setTarget`: the panel and its class editor follow `e`, and the styles are collected. */
    method SetTarget(e: Option<Elem>, snap: Snapshot)
      requires Valid()
      modifies this`target, this`snapshot, this`suggestions, this`needsRefresh, this`editorTarget
      ensures Valid()
      ensures old(disposed) ==> unchanged(this)
      ensures !disposed ==> target == e && editorTarget == (if visible && !doc.Attached(e) then None else e)
      ensures !disposed && !visible ==> (needsRefresh && snapshot == old(snapshot) && suggestions == old(suggestions))
      ensures !disposed && visible && !doc.Attached(e) ==> snapshot.None? && suggestions == []
      ensures !disposed && visible && doc.Attached(e) ==> (snapshot == Some(snap)
        && suggestions == Suggestions(snap, cap) && !needsRefresh)
    {
      if disposed {
        return;
      }
      target := e;
      editorTarget := e;
      CollectAndRender(snap);
    }

    /** `refresh`: the class editor refreshes and the styles are collected again. */
    method Refresh(snap: Snapshot)
      requires Valid()
      modifies this`snapshot, this`suggestions, this`needsRefresh, this`editorTarget, this`editorRefreshes
      ensures Valid()
      ensures old(disposed) ==> unchanged(this)
      ensures !disposed ==> editorRefreshes == old(editorRefreshes) + 1
      ensures !disposed && !visible ==> (needsRefresh && snapshot == old(snapshot) && suggestions == old(suggestions))
      ensures !disposed && visible && !doc.Attached(target) ==> snapshot.None? && suggestions == []
      ensures !disposed && visible && doc.Attached(target) ==> (snapshot == Some(snap)
        && suggestions == Suggestions(snap, cap) && !needsRefresh)
    {
      if disposed {
        return;
      }
      editorRefreshes := editorRefreshes + 1;
      CollectAndRender(snap);
    }

    /** `setVisible`: showing a panel that missed a collection while hidden collects now. */
    method SetVisible(v: bool, snap: Snapshot)
      requires Valid()
      modifies this`visible, this`snapshot, this`suggestions, this`needsRefresh, this`editorTarget
      ensures Valid()
      ensures old(disposed) ==> unchanged(this)
      ensures !disposed ==> visible == v
      ensures !disposed && v && old(needsRefresh) && !doc.Attached(target) ==> (
        snapshot.None? && suggestions == [] && needsRefresh)
      ensures !disposed && v && old(needsRefresh) && doc.Attached(target) ==> (
        snapshot == Some(snap) && suggestions == Suggestions(snap, cap) && !needsRefresh)
      ensures !(v && old(needsRefresh)) ==> (snapshot == old(snapshot) && suggestions == old(suggestions)
        && needsRefresh == old(needsRefresh))
    {
      if disposed {
        return;
      }
      visible := v;
      if v && needsRefresh {
        CollectAndRender(snap);
      }
    }

    /** `dispose`: the target, the snapshot and the cache are dropped, the class editor with them. */
    method Dispose()
      requires Valid()
      modifies this`target, this`snapshot, this`suggestions, this`visible, this`needsRefresh, this`disposed
      ensures Valid() && disposed
      ensures target.None? && snapshot.None? && suggestions == [] && !visible && !needsRefresh
    {
      target, snapshot, suggestions := None, None, [];
      visible, needsRefresh := false, false;
      disposed := true;
    }

    /**
     * The write of `onClassChange`: through the transaction manager when there is one, so
     * that the edit can be undone, and directly otherwise; then the class editor is given the
     * classes read back from the element and the owner is notified.
     */
    method CommitClasses(e: Elem, next: seq<string>)
      requires tm.Some? ==> tm.value.doc == doc
      modifies doc, (if tm.Some? then {tm.value} else {}), this`editorClasses, this`notified
      ensures doc.classAttr == Store(old(doc.classAttr), e, ClassValue(next))
      ensures doc.inline == old(doc.inline) && doc.computed == old(doc.computed) && doc.connected == old(doc.connected)
      ensures tm.Some? ==> (tm.value.history ==
        old(tm.value.history) + [ClassEntry(e, ReadElementClasses(old(doc.classAttr), e), next)])
      ensures editorClasses == ReadElementClasses(doc.classAttr, e)
      ensures notified == old(notified) + 1
    {
      var before := ReadElementClasses(doc.classAttr, e);
      if tm.Some? {
        tm.value.RecordClass(e, before, next);
      } else {
        ApplyClassListToElement(doc, e, next);
      }
      editorClasses := ReadElementClasses(doc.classAttr, e);
      notified := notified + 1;
    }

    /**
     * The class editor's `onClassChange(next)`. Without an attached target it does nothing.
     * Otherwise the class list is written: through the transaction manager when there is one,
     * so that the edit can be undone, and directly otherwise. The editor is then given the
     * classes read back from the element, the owner is notified, and the styles are collected
     * again, since the matching rules may differ.
     */
    method ClassChange(next: seq<string>, snap: Snapshot)
      requires Valid()
      modifies this`editorClasses, this`notified, this`snapshot, this`suggestions, this`needsRefresh, this`editorTarget
      modifies doc, (if tm.Some? then {tm.value} else {})
      ensures Valid()
      ensures doc.inline == old(doc.inline) && doc.computed == old(doc.computed) && doc.connected == old(doc.connected)
      ensures !old(doc.Attached(target)) ==> unchanged(this) && unchanged(doc)
      ensures !old(doc.Attached(target)) && tm.Some? ==> unchanged(tm.value)
      ensures old(doc.Attached(target)) ==> doc.classAttr == Store(old(doc.classAttr), target.value, ClassValue(next))
      ensures old(doc.Attached(target)) && tm.Some? ==> (tm.value.history ==
        old(tm.value.history) + [ClassEntry(target.value, ReadElementClasses(old(doc.classAttr), target.value), next)])
      ensures old(doc.Attached(target)) ==> editorClasses == ReadElementClasses(doc.classAttr, target.value)
      ensures old(doc.Attached(target)) ==> notified == old(notified) + 1
      ensures old(doc.Attached(target)) && visible ==> (snapshot == Some(snap) && suggestions == Suggestions(snap, cap)
        && !needsRefresh)
      ensures old(doc.Attached(target)) && !visible ==> needsRefresh
    {
      if !doc.Attached(target) {
        return;
      }
      var e := target.value;
      CommitClasses(e, next);
      ghost var attrs, classes := doc.classAttr, editorClasses;
      ghost var history := if tm.Some? then tm.value.history else [];
      CollectAndRender(snap);
      assert target == Some(e) && doc.classAttr == attrs && editorClasses == classes;
      assert tm.Some? ==> tm.value.history == history;
    }
  }
}
