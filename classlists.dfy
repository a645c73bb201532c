/**
 * Class lists: the normalisation `applyClassListToElement` performs before it writes the
 * `class` attribute, the element's `classList` that `readElementClasses` reads, the attribute
 * parsing of its fallback, and the first-occurrence de-duplication shared with the class
 * suggestion cache.
 */
module ClassLists {
  import opened Text
  import opened Wrappers
  import opened Dom

  /** Each string trimmed (`String(raw ?? '').trim()`). */
  function TrimAll(xs: seq<string>): (r: seq<string>)
    ensures |r| == |xs|
    ensures forall k :: 0 <= k < |xs| ==> r[k] == Trim(xs[k])
  {
    if xs == [] then [] else TrimAll(xs[..|xs| - 1]) + [Trim(xs[|xs| - 1])]
  }

  /** The non-empty strings of `xs`, each kept at its first occurrence only. */
  function NonEmptyDistinct(xs: seq<string>): (r: seq<string>)
    ensures forall k :: 0 <= k < |r| ==> r[k] != ""
    ensures forall x :: x in r <==> x in xs && x != ""
    ensures forall j, k :: 0 <= j < k < |r| ==> r[j] != r[k]
  {
    if xs == [] then []
    else
      var prev := NonEmptyDistinct(xs[..|xs| - 1]);
      var x := xs[|xs| - 1];
      assert xs == xs[..|xs| - 1] + [x];
      if x == "" || x in prev then prev else prev + [x]
  }

  /** Later strings never disturb the list built from earlier ones: first-occurrence order. */
  lemma {:induction false} NonEmptyDistinctPrefix(xs: seq<string>, ys: seq<string>)
    ensures NonEmptyDistinct(xs) <= NonEmptyDistinct(xs + ys)
    decreases |ys|
  {
    if ys == [] {
      assert xs + ys == xs;
    } else {
      var zs := xs + ys[..|ys| - 1];
      assert (xs + ys)[..|xs + ys| - 1] == zs;
      NonEmptyDistinctPrefix(xs, ys[..|ys| - 1]);
    }
  }

  /** A list of distinct non-empty strings is its own de-duplication. */
  lemma {:induction false} NonEmptyDistinctOfDistinct(xs: seq<string>)
    requires forall k :: 0 <= k < |xs| ==> xs[k] != ""
    requires forall j, k :: 0 <= j < k < |xs| ==> xs[j] != xs[k]
    ensures NonEmptyDistinct(xs) == xs
  {
    if xs != [] {
      var ys := xs[..|xs| - 1];
      NonEmptyDistinctOfDistinct(ys);
      assert xs[|xs| - 1] !in ys;
      assert xs == ys + [xs[|xs| - 1]];
    }
  }

  /** The tokens `applyClassListToElement` keeps: trimmed, non-empty, first occurrences. */
  function NormalizedClasses(classes: seq<string>): (r: seq<string>)
    ensures forall k :: 0 <= k < |r| ==> r[k] != ""
    ensures forall j, k :: 0 <= j < k < |r| ==> r[j] != r[k]
  {
    NonEmptyDistinct(TrimAll(classes))
  }

  /**
   * The kept tokens are trimmed, and they are exactly the non-empty trimmed forms of the
   * given classes.
   */
  lemma NormalizedClassesSound(classes: seq<string>)
    ensures var r := NormalizedClasses(classes);
      && (forall k :: 0 <= k < |r| ==> Trimmed(r[k]))
      && (forall x :: x in r <==> x != "" && exists k :: 0 <= k < |classes| && Trim(classes[k]) == x)
  {
    var t := TrimAll(classes);
    var r := NonEmptyDistinct(t);
    assert forall x :: x in t <==> exists k :: 0 <= k < |classes| && Trim(classes[k]) == x by {
      forall x | x in t ensures exists k :: 0 <= k < |classes| && Trim(classes[k]) == x {
        var k :| 0 <= k < |t| && t[k] == x;
        assert Trim(classes[k]) == x;
      }
    }
    forall k | 0 <= k < |r| ensures Trimmed(r[k]) {
      assert r[k] in t;
      var j :| 0 <= j < |t| && t[j] == r[k];
    }
  }

  /**
   * The `class` attribute value written for `classes`: the kept tokens joined by spaces, and
   * trimmed; None, to remove the attribute, when that leaves nothing.
   */
  function ClassValue(classes: seq<string>): Option<string> {
    var v := Trim(Join(NormalizedClasses(classes), " "));
    if v == "" then None else Some(v)
  }

  /** The attribute is removed exactly when no token is kept; otherwise it is the kept tokens joined by single spaces. */
  lemma ClassValueJoin(classes: seq<string>)
    ensures ClassValue(classes).None? <==> NormalizedClasses(classes) == []
    ensures ClassValue(classes).Some? ==> ClassValue(classes).value == Join(NormalizedClasses(classes), " ")
  {
    var n := NormalizedClasses(classes);
    NormalizedClassesSound(classes);
    JoinTrimmed(n);
    TrimmedIsFixed(Join(n, " "));
  }

  /** Non-empty trimmed tokens joined by spaces give a trimmed string, empty only for no tokens. */
  lemma {:induction false} JoinTrimmed(ts: seq<string>)
    requires forall k :: 0 <= k < |ts| ==> ts[k] != "" && Trimmed(ts[k])
    ensures Trimmed(Join(ts, " "))
    ensures Join(ts, " ") == "" <==> ts == []
    ensures ts != [] ==> Join(ts, " ")[0] == ts[0][0]
  {
    if |ts| > 1 {
      JoinTrimmed(ts[1..]);
      var rest := Join(ts[1..], " ");
      assert Join(ts, " ") == ts[0] + " " + rest;
      assert (ts[0] + " " + rest)[0] == ts[0][0];
    }
  }

  /**
   * The fallback of `readElementClasses`, for an element without an iterable `classList`: the
   * `class` attribute split on white space, each piece trimmed, the empty pieces dropped.
   */
  function ElementClasses(raw: string): seq<string> {
    NonEmptyPieces(TrimAll(SplitSpace(raw)))
  }

  /** The classes read from an attribute are non-empty and hold no white space. */
  lemma ElementClassesTokens(raw: string)
    ensures var r := ElementClasses(raw);
      forall k :: 0 <= k < |r| ==> r[k] != "" && NoSpace(r[k])
  {
    var ps := SplitSpace(raw);
    var t := TrimAll(ps);
    forall k | 0 <= k < |t| ensures t[k] == ps[k] {
      TrimmedIsFixed(ps[k]);
    }
    var r := NonEmptyPieces(t);
    forall k | 0 <= k < |r| ensures NoSpace(r[k]) {
      assert r[k] in t;
    }
  }

  /** The non-empty strings of `xs`, in order and with repetitions (`filter(Boolean)`). */
  function NonEmptyPieces(xs: seq<string>): (r: seq<string>)
    ensures forall k :: 0 <= k < |r| ==> r[k] != ""
    ensures forall x :: x in r <==> x in xs && x != ""
  {
    if xs == [] then []
    else
      var prev := NonEmptyPieces(xs[..|xs| - 1]);
      var x := xs[|xs| - 1];
      assert xs == xs[..|xs| - 1] + [x];
      if x == "" then prev else prev + [x]
  }

  /** One more class: its trimmed token is kept unless it is empty or already kept. */
  lemma NormalizedStep(classes: seq<string>, i: nat, prev: seq<string>, token: string)
    requires i < |classes| && prev == NormalizedClasses(classes[..i]) && token == Trim(classes[i])
    ensures NormalizedClasses(classes[..i + 1]) == if token == "" || token in prev then prev else prev + [token]
  {
    var xs := classes[..i + 1];
    assert xs[..|xs| - 1] == classes[..i];
    var t := TrimAll(classes[..i]);
    assert TrimAll(xs) == t + [token];
    assert (t + [token])[..|t|] == t;
  }

  /** The loop of `applyClassListToElement`: each token trimmed, the empty and the seen ones skipped. */
  method NormalizeClassList(classes: seq<string>) returns (normalized: seq<string>)
    ensures normalized == NormalizedClasses(classes)
  {
    normalized := [];
    var seen: set<string> := {};
    for i := 0 to |classes|
      invariant normalized == NormalizedClasses(classes[..i])
      invariant forall x :: x in seen <==> x in normalized
    {
      var token := Trim(classes[i]);
      NormalizedStep(classes, i, normalized, token);
      if token != "" && token !in seen {
        seen := seen + {token};
        normalized := normalized + [token];
      }
    }
    assert classes[..|classes|] == classes;
  }

  /**
   * `applyClassListToElement`: the normalised tokens joined by spaces become the `class`
   * attribute; when none is left the attribute is removed.
   */
  method ApplyClassListToElement(doc: Document, e: Elem, classes: seq<string>)
    modifies doc
    ensures doc.classAttr == Store(old(doc.classAttr), e, ClassValue(classes))
    ensures doc.inline == old(doc.inline) && doc.computed == old(doc.computed)
    ensures doc.connected == old(doc.connected)
  {
    var normalized := NormalizeClassList(classes);
    var value := Trim(Join(normalized, " "));
    if value != "" {
      doc.WriteClass(e, Some(value));
    } else {
      doc.WriteClass(e, None);
    }
  }

  /** The ASCII white space of the DOM's ordered-set parser: tab, line feed, form feed, carriage return, space. */
  predicate IsAsciiSpace(c: char) {
    c == ' ' || c == '\t' || c == '\n' || c == '\U{000C}' || c == '\r'
  }

  predicate NoAsciiSpace(s: string) { forall i :: 0 <= i < |s| ==> !IsAsciiSpace(s[i]) }

  /** The tokens of the ordered-set parser: the maximal runs of characters other than ASCII white space. */
  function AsciiTokens(s: string): (r: seq<string>)
    ensures forall k :: 0 <= k < |r| ==> r[k] != "" && NoAsciiSpace(r[k])
  {
    TokensFrom(s, 0, "")
  }

  function TokensFrom(s: string, i: nat, cur: string): (r: seq<string>)
    requires i <= |s| && NoAsciiSpace(cur)
    ensures forall k :: 0 <= k < |r| ==> r[k] != "" && NoAsciiSpace(r[k])
    decreases |s| - i
  {
    if i == |s| then (if cur == "" then [] else [cur])
    else if IsAsciiSpace(s[i]) then (if cur == "" then [] else [cur]) + TokensFrom(s, i + 1, "")
    else TokensFrom(s, i + 1, cur + [s[i]])
  }

  /**
   * The element's `classList` for a `class` attribute `raw`: a DOMTokenList is an ordered set,
   * so the ASCII-white-space tokens are kept at their first occurrence only.
   */
  function ClassListOf(raw: string): seq<string> {
    NonEmptyDistinct(AsciiTokens(raw))
  }

  /**
   * The classes of a `classList` are non-empty, hold no ASCII white space, never repeat, and
   * are exactly the tokens of the attribute.
   */
  lemma ClassListTokens(raw: string)
    ensures var r := ClassListOf(raw);
      && (forall k :: 0 <= k < |r| ==> r[k] != "" && NoAsciiSpace(r[k]))
      && (forall j, k :: 0 <= j < k < |r| ==> r[j] != r[k])
      && (forall x :: x in r <==> x in AsciiTokens(raw))
  {
    var t := AsciiTokens(raw);
    var r := ClassListOf(raw);
    forall k | 0 <= k < |r| ensures NoAsciiSpace(r[k]) {
      assert r[k] in t;
    }
  }

  /**
   * `readElementClasses`, with `attrs` the document's `class` attributes. Every element has
   * an iterable `classList`, so the first branch is the one taken: `Array.from(classList)`,
   * whose tokens are all non-empty. An element without the attribute has an empty list.
   */
  function ReadElementClasses(attrs: map<Elem, string>, e: Elem): seq<string> {
    if e in attrs then ClassListOf(attrs[e]) else []
  }

  /** A run of characters without ASCII white space is gathered into the current token. */
  lemma {:induction false} TokensFromToken(s: string, i: nat, cur: string, t: string)
    requires i + |t| <= |s| && s[i..i + |t|] == t
    requires NoAsciiSpace(t) && NoAsciiSpace(cur)
    ensures NoAsciiSpace(cur + t)
    ensures TokensFrom(s, i, cur) == TokensFrom(s, i + |t|, cur + t)
    decreases |t|
  {
    if t == [] {
      assert cur + t == cur;
    } else {
      assert s[i] == t[0];
      assert s[i + 1..i + |t|] == t[1..];
      assert (cur + [t[0]]) + t[1..] == cur + t;
      TokensFromToken(s, i + 1, cur + [t[0]], t[1..]);
    }
  }

  /** Non-empty tokens without ASCII white space, joined by single spaces, parse back into those tokens. */
  lemma {:induction false} TokensJoinFrom(s: string, i: nat, ts: seq<string>)
    requires ts != [] && forall k :: 0 <= k < |ts| ==> ts[k] != "" && NoAsciiSpace(ts[k])
    requires i <= |s| && s[i..] == Join(ts, " ")
    ensures TokensFrom(s, i, "") == ts
    decreases |ts|
  {
    var t := ts[0];
    assert "" + t == t;
    if |ts| == 1 {
      TokensFromToken(s, i, "", t);
    } else {
      var rest := Join(ts[1..], " ");
      assert s[i..] == t + " " + rest;
      assert s[i..i + |t|] == t;
      TokensFromToken(s, i, "", t);
      var j := i + |t|;
      assert s[j] == ' ';
      assert s[j + 1..] == rest;
      TokensJoinFrom(s, j + 1, ts[1..]);
      assert ts == [t] + ts[1..];
    }
  }

  /** Distinct tokens without ASCII white space, joined by spaces, are the `classList` of the result. */
  lemma ClassListOfJoin(ts: seq<string>)
    requires forall k :: 0 <= k < |ts| ==> ts[k] != "" && NoAsciiSpace(ts[k])
    requires forall j, k :: 0 <= j < k < |ts| ==> ts[j] != ts[k]
    ensures ClassListOf(Join(ts, " ")) == ts
  {
    var s := Join(ts, " ");
    if ts != [] {
      assert s[0..] == s;
      TokensJoinFrom(s, 0, ts);
    }
    NonEmptyDistinctOfDistinct(ts);
  }

  /** A repeated class is read once: the browser's list is a set. */
  lemma ClassListOfDuplicate()
    ensures ClassListOf("btn btn primary") == ["btn", "primary"]
  {
    var ts := ["btn", "btn", "primary"];
    JoinOfThree("btn", "btn", "primary");
    var s := "btn btn primary";
    assert s[0..] == s;
    TokensJoinFrom(s, 0, ts);
    DistinctOfThree("btn", "primary");
  }

  lemma JoinOfThree(a: string, b: string, c: string)
    ensures Join([a, b, c], " ") == a + " " + b + " " + c
  {
    assert [a, b, c][1..] == [b, c];
    assert [b, c][1..] == [c];
    assert Join([b, c], " ") == b + " " + c;
    assert Join([a, b, c], " ") == a + " " + (b + " " + c);
  }

  /** The set of `[a, a, b]`, for distinct non-empty `a` and `b`. */
  lemma DistinctOfThree(a: string, b: string)
    requires a != "" && b != "" && a != b
    ensures NonEmptyDistinct([a, a, b]) == [a, b]
  {
    assert [a, a, b][..2] == [a, a];
    assert [a, a][..1] == [a];
    assert [a][..0] == [];
    assert NonEmptyDistinct([a]) == [a];
    assert NonEmptyDistinct([a, a]) == [a];
  }

  /** A no-break space separates nothing in a `classList`, while the fallback split cuts there. */
  lemma ClassListOfNoBreakSpace()
    ensures ClassListOf("a\U{00A0}b") == ["a\U{00A0}b"]
    ensures ElementClasses("a\U{00A0}b") == ["a", "b"]
  {
    var s := "a\U{00A0}b";
    TokensOfNoBreak(s);
    assert [s][..0] == [];
    assert NonEmptyDistinct([s]) == [s];
    SplitNoBreak(s);
    TrimAllOfTokens(["a", "b"]);
    NonEmptyPiecesOfTokens(["a", "b"]);
  }

  lemma TokensOfNoBreak(s: string)
    requires s == "a\U{00A0}b"
    ensures AsciiTokens(s) == [s]
  {
    assert s[0..3] == s;
    assert "" + s == s;
    TokensFromToken(s, 0, "", s);
  }

  lemma SplitNoBreak(s: string)
    requires s == "a\U{00A0}b"
    ensures SplitSpace(s) == ["a", "b"]
  {
    assert s[0..1] == "a" && s[2..3] == "b";
    assert "" + "a" == "a" && "" + "b" == "b";
    SplitFromToken(s, 0, "", "a");
    assert SkipSpace(s, 1) == 2;
    assert SplitFrom(s, 1, "a") == ["a"] + SplitFrom(s, 2, "");
    SplitFromToken(s, 2, "", "b");
    assert SplitFrom(s, 3, "b") == ["b"];
  }

  /**
   * An element without a `class` attribute has no classes: the source reads the missing
   * attribute as "", which yields none.
   */
  lemma ElementClassesOfEmpty()
    ensures ElementClasses("") == []
  {
    assert SplitSpace("") == [""];
  }

  /** Splitting runs over a token without white space, gathering it into the current piece. */
  lemma {:induction false} SplitFromToken(s: string, i: nat, cur: string, t: string)
    requires i + |t| <= |s| && s[i..i + |t|] == t
    requires NoSpace(t) && NoSpace(cur)
    ensures NoSpace(cur + t)
    ensures SplitFrom(s, i, cur) == SplitFrom(s, i + |t|, cur + t)
    decreases |t|
  {
    if t == [] {
      assert cur + t == cur;
    } else {
      assert s[i] == t[0];
      assert s[i + 1..i + |t|] == t[1..];
      assert (cur + [t[0]]) + t[1..] == cur + t;
      SplitFromToken(s, i + 1, cur + [t[0]], t[1..]);
    }
  }

  /** Tokens without white space joined by single spaces split back into those tokens. */
  lemma {:induction false} SplitJoinFrom(s: string, i: nat, ts: seq<string>)
    requires ts != [] && forall k :: 0 <= k < |ts| ==> ts[k] != "" && NoSpace(ts[k])
    requires i <= |s| && s[i..] == Join(ts, " ")
    ensures SplitFrom(s, i, "") == ts
    decreases |ts|
  {
    var t := ts[0];
    assert "" + t == t;
    if |ts| == 1 {
      SplitFromToken(s, i, "", t);
    } else {
      var rest := Join(ts[1..], " ");
      assert s[i..] == t + " " + rest;
      assert s[i..i + |t|] == t;
      SplitFromToken(s, i, "", t);
      var j := i + |t|;
      assert s[j] == ' ';
      NoSpaceTrimmed(ts[1..]);
      JoinTrimmed(ts[1..]);
      assert s[j + 1..] == rest;
      assert s[j + 1] == ts[1][0];
      assert SkipSpace(s, j) == j + 1;
      SplitJoinFrom(s, j + 1, ts[1..]);
      assert ts == [t] + ts[1..];
    }
  }

  lemma NoSpaceTrimmed(ts: seq<string>)
    requires forall k :: 0 <= k < |ts| ==> ts[k] != "" && NoSpace(ts[k])
    ensures forall k :: 0 <= k < |ts| ==> ts[k] != "" && Trimmed(ts[k])
  {
  }

  lemma TrimAllOfTokens(ts: seq<string>)
    requires forall k :: 0 <= k < |ts| ==> NoSpace(ts[k])
    ensures TrimAll(ts) == ts
  {
    forall k | 0 <= k < |ts| ensures TrimAll(ts)[k] == ts[k] {
      TrimmedIsFixed(ts[k]);
    }
  }

  /** Tokens already free of white space pass the trimming and filtering unchanged. */
  lemma {:induction false} NonEmptyPiecesOfTokens(ts: seq<string>)
    requires forall k :: 0 <= k < |ts| ==> ts[k] != ""
    ensures NonEmptyPieces(ts) == ts
  {
    if ts != [] {
      NonEmptyPiecesOfTokens(ts[..|ts| - 1]);
      assert ts == ts[..|ts| - 1] + [ts[|ts| - 1]];
    }
  }

  /** Tokens without white space, joined by spaces, read back as the same tokens. */
  lemma ElementClassesOfJoin(ts: seq<string>)
    requires forall k :: 0 <= k < |ts| ==> ts[k] != "" && NoSpace(ts[k])
    ensures ElementClasses(Join(ts, " ")) == ts
  {
    var s := Join(ts, " ");
    if ts == [] {
      assert SplitSpace(s) == [""];
    } else {
      assert s[0..] == s;
      SplitJoinFrom(s, 0, ts);
      TrimAllOfTokens(ts);
      NonEmptyPiecesOfTokens(ts);
    }
  }

  /**
   * Writing a class list and reading it back gives its normalised tokens, as long as no
   * token holds ASCII white space inside it (such a token reads back as several classes).
   */
  lemma ClassValueReadBack(attrs: map<Elem, string>, e: Elem, classes: seq<string>)
    requires forall k :: 0 <= k < |NormalizedClasses(classes)| ==> NoAsciiSpace(NormalizedClasses(classes)[k])
    ensures ReadElementClasses(Store(attrs, e, ClassValue(classes)), e) == NormalizedClasses(classes)
  {
    ClassValueJoin(classes);
    if ClassValue(classes).Some? {
      ClassListOfJoin(NormalizedClasses(classes));
    }
  }

}
