/** How many documents a `delete` may touch: the scan of its statements, once in the
    inline array form and once in the document-sequence form. */
module Deletes {
  import opened Primitives
  import opened Bson
  import opened Elements
  import Json

  datatype DeleteScope = Single | Multi | Mixed

  /** What the two loops accumulate. */
  datatype Tally = Tally(statements: nat, single: bool, multi: bool)

  const NOTHING := Tally(0, false, false)

  function Count(t: Tally, limit: Option<int>): Tally {
    Tally(SaturateU32(t.statements + 1), t.single || limit == Some(1), t.multi || limit == Some(0))
  }

  function ScopeOf(t: Tally): Option<DeleteScope> {
    if t.single && t.multi then Some(Mixed)
    else if t.single then Some(Single)
    else if t.multi then Some(Multi)
    else None
  }

  type Scan = Decoded<(Option<DeleteScope>, nat)>

  function Report(t: Tally): Scan { Ok((ScopeOf(t), t.statements)) }

  // ---------------------------------------------------------------- delete_statement_limit

  function LimitFrom(rt: Runtime, d: Bytes, offset: nat): Decoded<Option<int>>
    requires |d| >= 1
    decreases |d| - offset
  {
    if offset >= |d| - 1 then Ok(None)
    else
      var ty := d[offset];
      var (key, start) :- ReadCString(rt, d, offset + 1);
      var next :- SkipValue(rt, d, start, ty);
      if key == Ascii("limit") then Ok(ReadI32ish(rt, d, start, ty))
      else LimitFrom(rt, d, next)
  }

  function StatementLimit(rt: Runtime, d: Bytes): Decoded<Option<int>> {
    if Framed(d) then LimitFrom(rt, d, 4) else Err(InvalidBson)
  }

  method DeleteStatementLimit(rt: Runtime, d: Bytes) returns (r: Decoded<Option<int>>)
    ensures r == StatementLimit(rt, d)
  {
    hide SkipValue, ReadCString, ReadI32ish;
    if !Framed(d) { return Err(InvalidBson); }
    var offset := 4;
    while offset < |d| - 1
      invariant StatementLimit(rt, d) == LimitFrom(rt, d, offset)
      decreases |d| - offset
    {
      var ty := d[offset];
      offset := offset + 1;
      var read := ReadCString(rt, d, offset);
      if read.Err? { return Err(read.error); }
      var start := read.value.1;
      var next := SkipValue(rt, d, start, ty);
      if next.Err? { return Err(next.error); }
      offset := next.value;
      if read.value.0 == Ascii("limit") {
        return Ok(ReadI32ish(rt, d, start, ty));
      }
    }
    r := Ok(None);
  }

  // ---------------------------------------------------------------- inline array

  function StatementsFrom(rt: Runtime, a: Bytes, offset: nat, t: Tally): Scan
    requires |a| >= 1
    decreases |a| - offset
  {
    if offset >= |a| - 1 then Report(t)
    else
      var ty := a[offset];
      var (_, start) :- ReadCString(rt, a, offset + 1);
      var next :- SkipValue(rt, a, start, ty);
      if ty != TYPE_DOCUMENT then StatementsFrom(rt, a, next, t)
      else
        var limit :- StatementLimit(rt, a[start..next]);
        StatementsFrom(rt, a, next, Count(t, limit))
  }

  function Statements(rt: Runtime, a: Bytes): Scan {
    if Framed(a) then StatementsFrom(rt, a, 4, NOTHING) else Err(InvalidBson)
  }

  method SummarizeDeleteStatements(rt: Runtime, a: Bytes) returns (r: Scan)
    ensures r == Statements(rt, a)
  {
    hide SkipValue, ReadCString, StatementLimit, SaturateU32, ScopeOf;
    if !Framed(a) { return Err(InvalidBson); }
    var offset := 4;
    var statements, hasSingle, hasMulti := 0, false, false;
    while offset < |a| - 1
      invariant Statements(rt, a) == StatementsFrom(rt, a, offset, Tally(statements, hasSingle, hasMulti))
      decreases |a| - offset
    {
      var ty := a[offset];
      offset := offset + 1;
      var read := ReadCString(rt, a, offset);
      if read.Err? { return Err(read.error); }
      var start := read.value.1;
      var next := SkipValue(rt, a, start, ty);
      if next.Err? { return Err(next.error); }
      offset := next.value;
      if ty != TYPE_DOCUMENT { continue; }
      statements := SaturateU32(statements + 1);
      var limit := StatementLimit(rt, a[start..offset]);
      if limit.Err? { return Err(limit.error); }
      if limit.value == Some(0) {
        hasMulti := true;
      } else if limit.value == Some(1) {
        hasSingle := true;
      }
    }
    r := Report(Tally(statements, hasSingle, hasMulti));
  }

  // ---------------------------------------------------------------- document sequence

  function SequenceFrom(rt: Runtime, documents: Bytes, offset: nat, t: Tally): Scan
    requires offset <= |documents|
    decreases |documents| - offset
  {
    if offset == |documents| then Report(t)
    else
      var length :- ReadI32(documents, offset);
      if length < 5 || offset + length > |documents| then Err(InvalidBson)
      else
        var limit :- StatementLimit(rt, documents[offset..offset + length]);
        SequenceFrom(rt, documents, offset + length, Count(t, limit))
  }

  method SummarizeDeleteDocumentSequence(rt: Runtime, documents: Bytes) returns (r: Scan)
    ensures r == SequenceFrom(rt, documents, 0, NOTHING)
  {
    hide StatementLimit, I32At, SaturateU32, ScopeOf;
    var offset := 0;
    var statements, hasSingle, hasMulti := 0, false, false;
    while offset < |documents|
      invariant offset <= |documents|
      invariant SequenceFrom(rt, documents, 0, NOTHING) ==
                SequenceFrom(rt, documents, offset, Tally(statements, hasSingle, hasMulti))
      decreases |documents| - offset
    {
      var length := ReadI32(documents, offset);
      if length.Err? { return Err(length.error); }
      if length.value < 5 { return Err(InvalidBson); }
      var end := offset + length.value;
      if end > |documents| { return Err(InvalidBson); }
      statements := SaturateU32(statements + 1);
      var limit := StatementLimit(rt, documents[offset..end]);
      if limit.Err? { return Err(limit.error); }
      if limit.value == Some(0) {
        hasMulti := true;
      } else if limit.value == Some(1) {
        hasSingle := true;
      }
      offset := end;
    }
    r := Report(Tally(statements, hasSingle, hasMulti));
  }

  // ---------------------------------------------------------------- what both compute

  function TallyOf(rt: Runtime, docs: seq<Bytes>, t: Tally): Tally
    requires forall d | d in docs :: StatementLimit(rt, d).Ok?
  {
    if docs == [] then t else TallyOf(rt, docs[1..], Count(t, StatementLimit(rt, docs[0]).value))
  }

  /** The array elements that hold the statements, under any keys. */
  function ArrayElements(keys: seq<Bytes>, docs: seq<Bytes>): (es: seq<Element>)
    requires |keys| == |docs|
    ensures |es| == |docs|
    ensures forall i :: 0 <= i < |docs| ==> es[i] == Element(keys[i], TYPE_DOCUMENT, docs[i])
  {
    seq(|docs|, i requires 0 <= i < |docs| => Element(keys[i], TYPE_DOCUMENT, docs[i]))
  }

  ghost predicate Keys(rt: Runtime, keys: seq<Bytes>) {
    forall k | k in keys :: 0 !in k && rt.utf8(k)
  }

  lemma FramedIsValue(rt: Runtime, key: Bytes, ty: byte, d: Bytes)
    requires Framed(d) && 0 !in key && rt.utf8(key) && (ty == TYPE_DOCUMENT || ty == TYPE_ARRAY)
    ensures ValidElement(rt, Element(key, ty, d))
  {
  }

  lemma LimitFramed(rt: Runtime, d: Bytes)
    requires StatementLimit(rt, d).Ok?
    ensures Framed(d)
  {
  }

  lemma StatementsStep(rt: Runtime, a: Bytes, offset: nat, e: Element, t: Tally)
    requires ValidElement(rt, e) && e.ty == TYPE_DOCUMENT && StatementLimit(rt, e.value).Ok?
    requires offset + |ElementBytes(e)| <= |a| - 1
    requires a[offset..offset + |ElementBytes(e)|] == ElementBytes(e)
    ensures StatementsFrom(rt, a, offset, t) ==
            StatementsFrom(rt, a, offset + |ElementBytes(e)|, Count(t, StatementLimit(rt, e.value).value))
  {
    hide SkipValue, ReadCString, StatementLimit;
    ElementAt(rt, a, offset, e);
  }

  lemma StatementsEnd(rt: Runtime, a: Bytes, offset: nat, t: Tally)
    requires |a| >= 1 && offset >= |a| - 1
    ensures StatementsFrom(rt, a, offset, t) == Report(t)
  {
  }

  lemma SequenceEnd(rt: Runtime, all: Bytes, t: Tally)
    ensures SequenceFrom(rt, all, |all|, t) == Report(t)
  {
  }

  lemma {:induction false} StatementsBody(
    rt: Runtime, pre: Bytes, keys: seq<Bytes>, docs: seq<Bytes>, a: Bytes, t: Tally
  )
    requires |keys| == |docs| && Keys(rt, keys)
    requires forall d | d in docs :: StatementLimit(rt, d).Ok?
    requires a == pre + Body(ArrayElements(keys, docs)) + [0]
    ensures StatementsFrom(rt, a, |pre|, t) == Report(TallyOf(rt, docs, t))
    decreases |docs|
  {
    hide StatementsFrom, ElementBytes, SkipValue, StatementLimit, Count, Report, I32At;
    var es := ArrayElements(keys, docs);
    if docs == [] {
      StatementsEnd(rt, a, |pre|, t);
    } else {
      LimitFramed(rt, docs[0]);
      assert es[1..] == ArrayElements(keys[1..], docs[1..]);
      FramedIsValue(rt, keys[0], TYPE_DOCUMENT, docs[0]);
      Regroup(pre, ElementBytes(es[0]), Body(es[1..]), [0]);
      StatementsStep(rt, a, |pre|, es[0], t);
      StatementsBody(rt, pre + ElementBytes(es[0]), keys[1..], docs[1..], a,
                     Count(t, StatementLimit(rt, docs[0]).value));
    }
  }

  lemma {:induction false} SequenceBody(rt: Runtime, pre: Bytes, docs: seq<Bytes>, all: Bytes, t: Tally)
    requires forall d | d in docs :: StatementLimit(rt, d).Ok?
    requires all == pre + Concat(docs)
    ensures SequenceFrom(rt, all, |pre|, t) == Report(TallyOf(rt, docs, t))
    decreases |docs|
  {
    hide StatementLimit, SequenceFrom, Count, Report;
    if docs == [] {
      SequenceEnd(rt, all, t);
    } else {
      assert all == (pre + docs[0]) + Concat(docs[1..]);
      SequenceBody(rt, pre + docs[0], docs[1..], all, Count(t, StatementLimit(rt, docs[0]).value));
      SequenceStep(rt, all, |pre|, docs[0], t);
    }
  }

  lemma SequenceStep(rt: Runtime, all: Bytes, offset: nat, d: Bytes, t: Tally)
    requires offset + |d| <= |all| && all[offset..offset + |d|] == d && StatementLimit(rt, d).Ok?
    ensures SequenceFrom(rt, all, offset, t) ==
            SequenceFrom(rt, all, offset + |d|, Count(t, StatementLimit(rt, d).value))
  {
    hide StatementLimit, I32At, Count;
    LimitFramed(rt, d);
    SliceWindow(all, offset, d);
    WindowI32(d, 0, all, offset, |d|);
  }

  /** The inline array and the document sequence of the same statements are summarised
      alike: the same scope, the same number of statements. */
  lemma TwoFormsOneSummary(rt: Runtime, keys: seq<Bytes>, docs: seq<Bytes>)
    requires |keys| == |docs| && Keys(rt, keys)
    requires forall d | d in docs :: StatementLimit(rt, d).Ok?
    requires |Serialize(ArrayElements(keys, docs))| < I32_LIMIT
    ensures Statements(rt, Serialize(ArrayElements(keys, docs))) == SequenceFrom(rt, Concat(docs), 0, NOTHING)
    ensures Statements(rt, Serialize(ArrayElements(keys, docs))) == Report(TallyOf(rt, docs, NOTHING))
  {
    hide StatementsFrom, SequenceFrom, StatementLimit, LengthBytes;
    var es := ArrayElements(keys, docs);
    SerializeFramed(es);
    StatementsBody(rt, LengthBytes(|Body(es)| + 5), keys, docs, Serialize(es), NOTHING);
    SequenceBody(rt, [], docs, Concat(docs), NOTHING);
  }

  /** What the tally says about the statements. */
  lemma {:induction false} TallyMeaning(rt: Runtime, docs: seq<Bytes>, t: Tally)
    requires forall d | d in docs :: StatementLimit(rt, d).Ok?
    requires t.statements <= U32_MAX
    ensures var r := TallyOf(rt, docs, t);
            && r.statements == SaturateU32(t.statements + |docs|)
            && (r.single <==> t.single || exists d :: d in docs && StatementLimit(rt, d) == Ok(Some(1)))
            && (r.multi <==> t.multi || exists d :: d in docs && StatementLimit(rt, d) == Ok(Some(0)))
    decreases |docs|
  {
    hide StatementLimit;
    if docs == [] {
    } else {
      TallyMeaning(rt, docs[1..], Count(t, StatementLimit(rt, docs[0]).value));
      assert docs == [docs[0]] + docs[1..];
    }
  }

  /** A document that converts to JSON is a statement the limit scan accepts. */
  lemma {:induction false} ParsedLimit(rt: Runtime, d: Bytes, offset: nat)
    requires |d| >= 1 && ParseFrom(rt, d, offset).Ok?
    ensures LimitFrom(rt, d, offset).Ok?
    decreases |d| - offset
  {
    hide SkipValue, ReadCString;
    if offset < |d| - 1 {
      var (_, start) := ReadCString(rt, d, offset + 1).value;
      ParsedLimit(rt, d, SkipValue(rt, d, start, d[offset]).value);
    }
  }

  lemma ConvertibleLimit(rt: Runtime, d: Bytes)
    requires Json.ContainerToJson(rt, d, false).Ok?
    ensures StatementLimit(rt, d).Ok?
  {
    hide ParseFrom, LimitFrom, Json.ContainerLoop;
    Json.ConvertedParses(rt, d, 4, map[], [], false);
    ParsedLimit(rt, d, 4);
  }
}
