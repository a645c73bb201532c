/**
 * The transaction manager as the editor's controls and panels use it. A style transaction
 * captures an element's inline declaration for one property when it begins, `set` writes
 * that declaration as a live preview, `commit` records the change in the history, and
 * `rollback` restores the captured declaration. A class edit is applied and recorded at once.
 */
module Transactions {
  import opened Text
  import opened Wrappers
  import opened Dom
  import opened ClassLists

  /** An open style transaction: its element, its property and the captured declaration. */
  datatype Txn = Txn(elem: Elem, prop: Prop, baseline: Option<string>)

  /** A history entry. `merge` asks the manager to fold the entry into a matching previous one. */
  datatype Entry =
    | StyleEntry(elem: Elem, prop: Prop, before: Option<string>, after: Option<string>, merge: bool)
    | ClassEntry(elem: Elem, beforeClasses: seq<string>, afterClasses: seq<string>)

  /** The entry committing `t` records while the element's declaration is `after`. */
  function CommitEntry(t: Txn, after: Option<string>): (e: Entry)
    ensures e.StyleEntry? && e.elem == t.elem && e.prop == t.prop && e.merge
    ensures e.before == t.baseline && e.after == after
  {
    StyleEntry(t.elem, t.prop, t.baseline, after, true)
  }

  /**
   * The entries committing, in the order of `props`, the transaction each property holds in
   * `txns`; a property listed twice commits once.
   */
  function CommitEntries(props: seq<Prop>, txns: map<Prop, Txn>, inline: map<(Elem, Prop), string>): (r: seq<Entry>)
    ensures |r| <= |props|
    decreases |props|
  {
    if props == [] then []
    else
      var p := props[0];
      if p in txns then
        [CommitEntry(txns[p], Lookup(inline, (txns[p].elem, txns[p].prop)))] + CommitEntries(props[1..], txns - {p}, inline)
      else CommitEntries(props[1..], txns, inline)
  }

  /** Every transaction of a listed property is committed exactly once, and nothing else is. */
  lemma {:induction false} CommitEntriesExactlyOnce(props: seq<Prop>, txns: map<Prop, Txn>, inline: map<(Elem, Prop), string>)
    requires txns.Keys <= set p | p in props
    ensures |CommitEntries(props, txns, inline)| == |txns|
    ensures forall p :: p in txns ==> CommitEntry(txns[p], Lookup(inline, (txns[p].elem, txns[p].prop))) in CommitEntries(props, txns, inline)
    decreases |props|
  {
    if props != [] {
      var p := props[0];
      var rest := if p in txns then txns - {p} else txns;
      assert rest.Keys <= set q | q in props[1..] by {
        forall q | q in rest ensures q in props[1..] {
          assert q in props && q != props[0];
          var k :| 0 <= k < |props| && props[k] == q;
          assert props[1..][k - 1] == q;
        }
      }
      CommitEntriesExactlyOnce(props[1..], rest, inline);
      if p in txns {
        assert |rest| == |txns| - 1 by {
          assert txns.Keys == rest.Keys + {p};
        }
      }
    } else {
      assert txns.Keys == {};
    }
  }

  class TransactionManager {
    const doc: Document
    var open: map<nat, Txn>
    var history: seq<Entry>
    var next: nat

    /** Handles are issued once: every open handle is below the next one. */
    ghost predicate Valid()
      reads this
    {
      forall h :: h in open ==> h < next
    }

    constructor (doc: Document)
      ensures Valid() && this.doc == doc
      ensures open == map[] && history == [] && next == 0
    {
      this.doc := doc;
      open, history, next := map[], [], 0;
    }

    /** `beginStyle(e, p)`: a fresh handle whose transaction captures `e`'s declaration of `p`. */
    method BeginStyle(e: Elem, p: Prop) returns (h: nat)
      requires Valid()
      modifies this
      ensures Valid()
      ensures h == old(next) && next == h + 1 && h !in old(open)
      ensures open == old(open)[h := Txn(e, p, Lookup(doc.inline, (e, p)))]
      ensures history == old(history)
    {
      h := next;
      open := open[h := Txn(e, p, Lookup(doc.inline, (e, p)))];
      next := next + 1;
    }

    /** `handle.set(v)`: the preview writes the declaration; a closed handle does nothing. */
    method Set(h: nat, v: string)
      modifies doc
      ensures h in open ==> doc.inline == Store(old(doc.inline), (open[h].elem, open[h].prop), Declared(v))
      ensures h !in open ==> doc.inline == old(doc.inline)
      ensures doc.computed == old(doc.computed) && doc.connected == old(doc.connected)
      ensures doc.classAttr == old(doc.classAttr)
    {
      if h in open {
        doc.WriteInline(open[h].elem, open[h].prop, Declared(v));
      }
    }

    /** `handle.commit({merge})`: the transaction closes and its change enters the history. */
    method Commit(h: nat, merge: bool)
      modifies this
      ensures open == old(open) - {h}
      ensures h in old(open) ==> history == old(history) + [StyleEntry(old(open)[h].elem, old(open)[h].prop,
        old(open)[h].baseline, Lookup(doc.inline, (old(open)[h].elem, old(open)[h].prop)), merge)]
      ensures h !in old(open) ==> history == old(history)
      ensures next == old(next)
    {
      if h in open {
        var t := open[h];
        history := history + [StyleEntry(t.elem, t.prop, t.baseline, Lookup(doc.inline, (t.elem, t.prop)), merge)];
        open := open - {h};
      }
    }

    /** `handle.rollback()`: the captured declaration is restored and the transaction closes. */
    method Rollback(h: nat)
      modifies this, doc
      ensures open == old(open) - {h}
      ensures h in old(open) ==> doc.inline == Store(old(doc.inline), (old(open)[h].elem, old(open)[h].prop), old(open)[h].baseline)
      ensures h !in old(open) ==> doc.inline == old(doc.inline)
      ensures history == old(history) && next == old(next)
      ensures doc.computed == old(doc.computed) && doc.connected == old(doc.connected)
      ensures doc.classAttr == old(doc.classAttr)
    {
      if h in open {
        var t := open[h];
        doc.WriteInline(t.elem, t.prop, t.baseline);
        open := open - {h};
      }
    }

    /** `recordClass(e, before, after)`: the class list is applied and the edit recorded. */
    method RecordClass(e: Elem, before: seq<string>, after: seq<string>)
      modifies this, doc
      ensures doc.classAttr == Store(old(doc.classAttr), e, ClassValue(after))
      ensures history == old(history) + [ClassEntry(e, before, after)]
      ensures open == old(open) && next == old(next)
      ensures doc.inline == old(doc.inline) && doc.computed == old(doc.computed)
      ensures doc.connected == old(doc.connected)
    {
      doc.WriteClass(e, ClassValue(after));
      history := history + [ClassEntry(e, before, after)];
    }
  }
}
