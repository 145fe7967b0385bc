/** What prefix decoding gives exactly, when the cut falls between two elements, and why
    agreement with the whole document needs fields with a single writer. */
module PrefixLimits {
  import opened Primitives
  import opened Bson
  import opened Elements
  import opened Summaries
  import T = BsonTree
  import R = Readings

  /** The elements the prefix walk absorbs: it stops after the first value that has no
      bytes of its own, a null or a min key say. */
  function Visible(xs: seq<Element>): seq<Element> {
    if xs == [] then []
    else if xs[0].value == [] then [xs[0]]
    else [xs[0]] + Visible(xs[1..])
  }

  lemma VisibleStep(rt: Runtime, s: Summary, first: bool, xs: seq<Element>)
    requires xs != []
    ensures Fold(rt, s, first, Visible(xs), true) ==
            var s' := AbsorbElement(rt, s, first, xs[0], true);
            if xs[0].value == [] then s' else Fold(rt, s', false, Visible(xs[1..]), true)
  {
    hide AbsorbElement;
    assert Visible(xs)[1..] == if xs[0].value == [] then [] else Visible(xs[1..]);
  }

  /** One round of the prefix walk over an element that is all there. */
  lemma PrefixStep(rt: Runtime, p: Bytes, offset: nat, s: Summary, first: bool, e: Element)
    requires ValidElement(rt, e) && offset + |ElementBytes(e)| <= |p|
    requires p[offset..offset + |ElementBytes(e)|] == ElementBytes(e)
    ensures PrefixFrom(rt, p, |p|, offset, s, first) ==
            var s' := AbsorbElement(rt, s, first, e, true);
            if e.value == [] then s' else PrefixFrom(rt, p, |p|, offset + |ElementBytes(e)|, s', false)
  {
    hide SkipValue, ReadCString, Absorb, AbsorbElement;
    ElementAt(rt, p, offset, e);
    AbsorbLocal(rt, s, first, e.key, e.ty, p, offset + 2 + |e.key|, offset + |ElementBytes(e)|, true);
  }

  lemma {:induction false} PrefixBody(rt: Runtime, pre: Bytes, xs: seq<Element>, p: Bytes, s: Summary, first: bool)
    requires ValidElements(rt, xs) && p == pre + Body(xs)
    ensures PrefixFrom(rt, p, |p|, |pre|, s, first) == Fold(rt, s, first, Visible(xs), true)
    decreases |xs|
  {
    hide ElementBytes, SkipValue, AbsorbElement, Visible, Fold, PrefixFrom;
    if xs == [] {
      NothingVisible(rt, p, s, first);
    } else {
      var e := xs[0];
      var pre' := pre + ElementBytes(e);
      assert p == pre' + Body(xs[1..]) && p[|pre|..|pre'|] == ElementBytes(e);
      PrefixStep(rt, p, |pre|, s, first, e);
      VisibleStep(rt, s, first, xs);
      PrefixBody(rt, pre', xs[1..], p, AbsorbElement(rt, s, first, e, true), false);
    }
  }

  lemma NothingVisible(rt: Runtime, p: Bytes, s: Summary, first: bool)
    ensures Fold(rt, s, first, Visible([]), true) == s && PrefixFrom(rt, p, |p|, |p|, s, first) == s
  {
  }

  lemma VisibleNames(rt: Runtime, xs: seq<Element>)
    requires xs != []
    ensures Fold(rt, EMPTY, true, Visible(xs), true).firstKey == Some(xs[0].key)
  {
    hide AbsorbElement, Visible, Fold;
    VisibleStep(rt, EMPTY, true, xs);
    FirstAbsorbed(rt, xs[0]);
    if xs[0].value != [] { KeyStays(rt, AbsorbElement(rt, EMPTY, true, xs[0], true), Visible(xs[1..])); }
  }

  lemma FirstAbsorbed(rt: Runtime, e: Element)
    ensures AbsorbElement(rt, EMPTY, true, e, true).firstKey == Some(e.key)
  {
    hide KindOf, ReadString, ReadBoolish, ReadI32ish, ReadU64ish;
  }

  lemma {:induction false} KeyStays(rt: Runtime, s: Summary, xs: seq<Element>)
    ensures Fold(rt, s, false, xs, true).firstKey == s.firstKey
    decreases |xs|
  {
    hide KindOf, ReadString, ReadBoolish, ReadI32ish, ReadU64ish;
    if xs == [] {
    } else {
      KeyStays(rt, AbsorbElement(rt, s, false, xs[0], true), xs[1..]);
    }
  }

  /** The document `xs + ys` cut off after `xs`. */
  function CutAfter(xs: seq<Element>, ys: seq<Element>): Bytes {
    LengthBytes(|Serialize(xs + ys)|) + Body(xs)
  }

  lemma CutShape(xs: seq<Element>, ys: seq<Element>)
    requires xs != [] && |Serialize(xs + ys)| < I32_LIMIT
    ensures var d, p := Serialize(xs + ys), CutAfter(xs, ys);
            p <= d && 5 <= |p| < |d| && I32At(p, 0) == |d|
  {
    hide LengthBytes, ElementBytes, Body;
    BodySplit(xs, ys);
    NotShort(xs);
    var n := LengthBytes(|Serialize(xs + ys)|);
    CutOff(n, Body(xs), Body(ys));
    var p := CutAfter(xs, ys);
    assert p[0..0 + 4] == n;
    LengthRoundTrip(p, 0, |Serialize(xs + ys)|);
  }

  lemma NotShort(xs: seq<Element>)
    requires xs != []
    ensures |Body(xs)| >= 2
  {
  }

  lemma CutOff(n: Bytes, x: Bytes, y: Bytes)
    ensures n + x <= n + (x + y) + [0]
  {
    assert n + (x + y) + [0] == (n + x) + (y + [0]);
  }

  /** Cut a document after any of its elements: the prefix summary is the summary of the
      elements the walk sees, no more and no less. */
  lemma PrefixAtBoundary(rt: Runtime, xs: seq<Element>, ys: seq<Element>)
    requires xs != [] && ValidElements(rt, xs) && |Serialize(xs + ys)| < I32_LIMIT
    ensures CutAfter(xs, ys) <= Serialize(xs + ys)
    ensures SummarizePrefix(rt, CutAfter(xs, ys)) == Ok(Fold(rt, EMPTY, true, Visible(xs), true))
  {
    hide PrefixFrom, Fold, Visible, I32At, LengthBytes, ElementBytes, Body;
    CutShape(xs, ys);
    PrefixBody(rt, LengthBytes(|Serialize(xs + ys)|), xs, CutAfter(xs, ys), EMPTY, true);
    VisibleNames(rt, xs);
  }

  // ---------------------------------------------------------------- duplicate keys

  function DatabaseField(name: Bytes): Element { Element(Ascii("$db"), TYPE_STRING, T.StringBytes(name)) }

  lemma DatabaseAbsorbed(rt: Runtime, s: Summary, name: Bytes)
    requires rt.utf8(name) && |name| + 1 < I32_LIMIT
    ensures AbsorbElement(rt, s, false, DatabaseField(name), true).database == Some(name)
  {
    hide T.StringBytes, ReadString;
    T.StringRoundTrip(rt, name, []);
    assert T.StringBytes(name) + [] == T.StringBytes(name);
  }

  lemma FoldOne(rt: Runtime, s: Summary, first: bool, e: Element, rest: seq<Element>)
    ensures Fold(rt, s, first, [e] + rest, true) == Fold(rt, AbsorbElement(rt, s, first, e, true), false, rest, true)
  {
    hide AbsorbElement;
    assert ([e] + rest)[1..] == rest;
  }

  lemma FoldNone(rt: Runtime, s: Summary)
    ensures Fold(rt, s, false, [], true) == s
  {
  }

  lemma VisibleTwo(a: Element, b: Element)
    requires a.value != []
    ensures Visible([a, b]) == [a, b]
  {
    assert [a, b][1..] == [b] && [b][1..] == [];
    assert Visible([b]) == [b];
  }

  /** A document that names its database twice: cut between the two, the prefix reports
      the first name, and the whole document reports the second. */
  lemma DuplicateKeysDisagree(rt: Runtime, command: Element, one: Bytes, two: Bytes)
    requires ValidElement(rt, command) && command.value != []
    requires ValidElement(rt, DatabaseField(one)) && ValidElement(rt, DatabaseField(two))
    requires rt.utf8(one) && rt.utf8(two) && |one| + 1 < I32_LIMIT && |two| + 1 < I32_LIMIT
    requires |Serialize([command, DatabaseField(one), DatabaseField(two)])| < I32_LIMIT
    ensures var xs, ys := [command, DatabaseField(one)], [DatabaseField(two)];
            var cut, whole := SummarizePrefix(rt, CutAfter(xs, ys)), Summarize(rt, Serialize(xs + ys), true);
            && CutAfter(xs, ys) <= Serialize(xs + ys)
            && cut.Ok? && cut.value.database == Some(one)
            && whole.Ok? && whole.value.database == Some(two)
  {
    hide SummarizePrefix, Fold, Visible, Body, Serialize, AbsorbElement, DatabaseField, Parse, CutAfter, ValidElement;
    var a, b, c := command, DatabaseField(one), DatabaseField(two);
    assert [a, b] + [c] == [a, b, c];
    PrefixAtBoundary(rt, [a, b], [c]);
    VisibleTwo(a, b);
    ParseSerialize(rt, [a, b, c]);
    var s := AbsorbElement(rt, EMPTY, true, a, true);
    var t := AbsorbElement(rt, s, false, b, true);
    var u := AbsorbElement(rt, t, false, c, true);
    assert [a, b] == [a] + [b] && [b] == [b] + [] && [a, b, c] == [a] + [b, c] && [b, c] == [b] + [c] && [c] == [c] + [];
    FoldOne(rt, EMPTY, true, a, [b]);
    FoldOne(rt, s, false, b, []);
    FoldNone(rt, t);
    FoldOne(rt, EMPTY, true, a, [b, c]);
    FoldOne(rt, s, false, b, [c]);
    FoldOne(rt, t, false, c, []);
    FoldNone(rt, u);
    DatabaseAbsorbed(rt, s, one);
    DatabaseAbsorbed(rt, t, two);
    QueryKeepsDatabase(rt, u, Serialize([a, b, c]));
  }

  lemma QueryKeepsDatabase(rt: Runtime, s: Summary, d: Bytes)
    ensures WithQuery(rt, s, d).database == s.database
  {
  }

  /** Cut between two elements, a document reports each field as the elements the walk
      sees write it. */
  lemma BoundaryReads(rt: Runtime, xs: seq<Element>, ys: seq<Element>)
    requires xs != [] && ValidElements(rt, xs) && |Serialize(xs + ys)| < I32_LIMIT
    ensures var cut := SummarizePrefix(rt, CutAfter(xs, ys));
            cut.Ok? && R.Reads(rt, Visible(xs), true, cut.value) && cut.value.query.None?
  {
    hide SummarizePrefix, Fold, Visible, Serialize, CutAfter, ValidElement, R.LastWith, R.Mechanism, R.User, R.Done,
      R.Speculative, R.DeleteScan;
    PrefixAtBoundary(rt, xs, ys);
    R.ReadsPlain(rt, Visible(xs), true);
    R.ReadsNumbers(rt, Visible(xs), true);
    R.ReadsGathered(rt, Visible(xs), true);
    R.ReadsDeletes(rt, Visible(xs), true);
    R.QueryUnset(rt, Visible(xs), true);
  }

  /** The database a list of elements names: that of its last `$db` string. */
  function LastDatabase(rt: Runtime, es: seq<Element>): Option<Bytes> {
    R.TextIn(rt, R.LastWith(es, "$db", Some(R.STRING)))
  }

  /** Exactly when a document cut between two elements names its database as the whole one
      does: when the last name before the cut, up to the first value without bytes, is the
      last name of the document. */
  lemma DuplicatesExactly(rt: Runtime, xs: seq<Element>, ys: seq<Element>)
    requires xs != [] && ValidElements(rt, xs + ys) && |Serialize(xs + ys)| < I32_LIMIT
    ensures var cut, whole := SummarizePrefix(rt, CutAfter(xs, ys)), Summarize(rt, Serialize(xs + ys), true);
            && cut.Ok? && whole.Ok?
            && (cut.value.database == whole.value.database
                <==> LastDatabase(rt, Visible(xs)) == LastDatabase(rt, xs + ys))
  {
    hide SummarizePrefix, Summarize, Visible, Serialize, CutAfter, ValidElement, R.LastWith;
    assert forall e | e in xs :: e in xs + ys;
    BoundaryReads(rt, xs, ys);
    R.SummaryReads(rt, xs + ys, true);
  }
}
