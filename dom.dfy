/**
 * The part of the page the editor reads and writes: for each element, its inline style
 * declarations, the values the browser computes, whether it is still in the document, and
 * its `class` attribute. Elements are identities; the browser's style resolution is not
 * modelled, so computed values are whatever the page holds.
 */
module Dom {
  import opened Text
  import opened Wrappers

  /** An element's identity (`===` on elements). */
  type Elem = nat

  /** A CSS property name. */
  type Prop = string

  /** The value stored under `k`, if any. */
  function Lookup<K, V>(m: map<K, V>, k: K): (r: Option<V>)
    ensures r.Some? <==> k in m
    ensures r.Some? ==> r.value == m[k]
  {
    if k in m then Some(m[k]) else None
  }

  /** `m` with `k` set to `v`, or with `k` removed when `v` is None. */
  function Store<K(!new), V>(m: map<K, V>, k: K, v: Option<V>): (r: map<K, V>)
    ensures Lookup(r, k) == v
    ensures forall j :: j != k ==> Lookup(r, j) == Lookup(m, j)
  {
    if v.Some? then m[k := v.value] else m - {k}
  }

  /** A declaration value as `style.setProperty` stores it: "" removes the declaration. */
  function Declared(v: string): (r: Option<string>)
    ensures r.None? <==> v == ""
  {
    if v == "" then None else Some(v)
  }

  /** The trimmed value stored for `e` and `p`, "" when there is none. */
  function Entry(m: map<(Elem, Prop), string>, e: Elem, p: Prop): (r: string)
    ensures Trimmed(r)
    ensures (e, p) !in m ==> r == ""
  {
    if (e, p) in m then Trim(m[(e, p)]) else ""
  }

  class Document {
    var inline: map<(Elem, Prop), string>
    var computed: map<(Elem, Prop), string>
    var connected: set<Elem>
    var classAttr: map<Elem, string>

    constructor (computed: map<(Elem, Prop), string>, connected: set<Elem>)
      ensures this.inline == map[] && this.computed == computed
      ensures this.connected == connected && this.classAttr == map[]
    {
      this.inline := map[];
      this.computed := computed;
      this.connected := connected;
      this.classAttr := map[];
    }

    /** Whether `e` is a target the controls may edit: present and `isConnected`. */
    predicate Attached(e: Option<Elem>)
      reads this
    {
      e.Some? && e.value in connected
    }

    /** `readInlineValue`: the trimmed inline declaration, "" when there is none. */
    function InlineValue(e: Elem, p: Prop): (r: string)
      reads this
      ensures Trimmed(r)
      ensures (e, p) !in inline ==> r == ""
    {
      Entry(inline, e, p)
    }

    /** `readComputedValue`: the trimmed computed value, "" when there is none. */
    function ComputedValue(e: Elem, p: Prop): (r: string)
      reads this
      ensures Trimmed(r)
      ensures (e, p) !in computed ==> r == ""
    {
      Entry(computed, e, p)
    }

    /** `getAttribute('class') ?? ''`. */
    function ClassAttribute(e: Elem): (r: string)
      reads this
      ensures e !in classAttr ==> r == ""
    {
      if e in classAttr then classAttr[e] else ""
    }

    /** The element is removed from, or inserted into, the document. */
    method SetConnected(e: Elem, c: bool)
      modifies this
      ensures connected == if c then old(connected) + {e} else old(connected) - {e}
      ensures inline == old(inline) && computed == old(computed) && classAttr == old(classAttr)
    {
      connected := if c then connected + {e} else connected - {e};
    }

    /** `style.setProperty(p, v)` on `e`; the empty value removes the declaration. */
    method WriteInline(e: Elem, p: Prop, v: Option<string>)
      modifies this
      ensures inline == Store(old(inline), (e, p), v)
      ensures computed == old(computed) && connected == old(connected) && classAttr == old(classAttr)
    {
      inline := Store(inline, (e, p), v);
    }

    /** `setAttribute('class', v)`, or `removeAttribute('class')` for None. */
    method WriteClass(e: Elem, v: Option<string>)
      modifies this
      ensures classAttr == Store(old(classAttr), e, v)
      ensures inline == old(inline) && computed == old(computed) && connected == old(connected)
    {
      classAttr := Store(classAttr, e, v);
    }
  }
}
