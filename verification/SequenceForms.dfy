/** The two ways a driver can send the statements of one command, inline in the body as
    an array or after it as a kind-1 document sequence, decode to the same command. */
module SequenceForms {
  import opened Primitives
  import opened Bson
  import opened Elements
  import opened Deletes
  import opened Json
  import opened Summaries
  import opened Wire

  ghost predicate Convertible(rt: Runtime, docs: seq<Bytes>) {
    forall d | d in docs :: ContainerToJson(rt, d, false).Ok?
  }

  function Converted(rt: Runtime, docs: seq<Bytes>): (js: seq<Json>)
    requires Convertible(rt, docs)
    ensures |js| == |docs|
    ensures forall i :: 0 <= i < |docs| ==> js[i] == ContainerToJson(rt, docs[i], false).value
  {
    seq(|docs|, i requires 0 <= i < |docs| => ContainerToJson(rt, docs[i], false).value)
  }

  // ---------------------------------------------------------------- the statements as JSON

  lemma ConvertedFramed(rt: Runtime, d: Bytes)
    requires ContainerToJson(rt, d, false).Ok?
    ensures Framed(d)
  {
  }

  lemma {:induction false} SequenceJson(rt: Runtime, pre: Bytes, docs: seq<Bytes>, all: Bytes, acc: seq<Json>)
    requires Convertible(rt, docs) && all == pre + Concat(docs)
    ensures SequenceToJson(rt, all, |pre|, acc) == Ok(acc + Converted(rt, docs))
    decreases |docs|
  {
    hide ContainerToJson, SequenceToJson;
    if docs == [] {
      SequenceJsonEnd(rt, all, acc);
      assert acc + Converted(rt, docs) == acc;
    } else {
      assert all == (pre + docs[0]) + Concat(docs[1..]);
      var value := ContainerToJson(rt, docs[0], false).value;
      SequenceJsonStep(rt, all, |pre|, docs[0], acc);
      SequenceJson(rt, pre + docs[0], docs[1..], all, acc + [value]);
      assert acc + [value] + Converted(rt, docs[1..]) == acc + Converted(rt, docs);
    }
  }

  lemma SequenceJsonEnd(rt: Runtime, all: Bytes, acc: seq<Json>)
    ensures SequenceToJson(rt, all, |all|, acc) == Ok(acc)
  {
  }

  lemma SequenceJsonStep(rt: Runtime, all: Bytes, offset: nat, d: Bytes, acc: seq<Json>)
    requires offset + |d| <= |all| && all[offset..offset + |d|] == d && ContainerToJson(rt, d, false).Ok?
    ensures SequenceToJson(rt, all, offset, acc) ==
            SequenceToJson(rt, all, offset + |d|, acc + [ContainerToJson(rt, d, false).value])
  {
    hide ContainerToJson, I32At;
    ConvertedFramed(rt, d);
    SliceWindow(all, offset, d);
    WindowI32(d, 0, all, offset, |d|);
  }

  lemma {:induction false} ArrayJson(rt: Runtime, keys: seq<Bytes>, docs: seq<Bytes>, acc: seq<Json>)
    requires |keys| == |docs| && Convertible(rt, docs)
    ensures ElementsToJson(rt, ArrayElements(keys, docs), map[], acc, true) == Ok(List(acc + Converted(rt, docs)))
    decreases |docs|
  {
    hide ContainerToJson, ValueToJson;
    if docs == [] {
      assert acc + Converted(rt, docs) == acc;
    } else {
      ContainerValue(rt, docs[0], TYPE_DOCUMENT);
      var value := ContainerToJson(rt, docs[0], false).value;
      assert ArrayElements(keys, docs)[1..] == ArrayElements(keys[1..], docs[1..]);
      ArrayJson(rt, keys[1..], docs[1..], acc + [value]);
      assert acc + [value] + Converted(rt, docs[1..]) == acc + Converted(rt, docs);
    }
  }

  /** The array element that carries the statements inline. */
  function Inline(identifier: Bytes, keys: seq<Bytes>, docs: seq<Bytes>): Element
    requires |keys| == |docs|
  {
    Element(identifier, TYPE_ARRAY, Serialize(ArrayElements(keys, docs)))
  }

  lemma ArrayElementsValid(rt: Runtime, keys: seq<Bytes>, docs: seq<Bytes>)
    requires |keys| == |docs| && Keys(rt, keys) && Convertible(rt, docs)
    ensures ValidElements(rt, ArrayElements(keys, docs))
  {
    hide ContainerToJson, SkipValue, I32At;
    var es := ArrayElements(keys, docs);
    forall i | 0 <= i < |es| ensures ValidElement(rt, es[i]) {
      ConvertedFramed(rt, docs[i]);
      FramedIsValue(rt, keys[i], TYPE_DOCUMENT, docs[i]);
    }
  }

  lemma InlineValue(rt: Runtime, identifier: Bytes, keys: seq<Bytes>, docs: seq<Bytes>)
    requires |keys| == |docs| && Keys(rt, keys) && Convertible(rt, docs)
    requires 0 !in identifier && rt.utf8(identifier)
    requires |Serialize(ArrayElements(keys, docs))| < I32_LIMIT
    ensures ValidElement(rt, Inline(identifier, keys, docs))
    ensures ElementJson(rt, Inline(identifier, keys, docs)) == Ok(List(Converted(rt, docs)))
  {
    hide ContainerToJson, ValueToJson, SkipValue;
    var es := ArrayElements(keys, docs);
    ArrayElementsValid(rt, keys, docs);
    ConvertSerialized(rt, es, true);
    ArrayJson(rt, keys, docs, []);
    assert [] + Converted(rt, docs) == Converted(rt, docs);
    ContainerValue(rt, Serialize(es), TYPE_ARRAY);
    SerializeFramed(es);
    FramedIsValue(rt, identifier, TYPE_ARRAY, Serialize(es));
  }

  // ---------------------------------------------------------------- the query object

  /** `b` is `a` with one more member, when `a` is an object at all. */
  ghost predicate OneMore(a: Decoded<Json>, b: Decoded<Json>, key: Bytes, value: Json) {
    && (a.Ok? <==> b.Ok?)
    && (a.Ok? ==> a.value.Object? && b.value == Object(a.value.fields[key := value]))
  }

  lemma {:induction false} MemberCommutes(
    rt: Runtime, es: seq<Element>, fields: map<Bytes, Json>, key: Bytes, value: Json
  )
    requires forall e | e in es :: e.key != key
    ensures OneMore(ElementsToJson(rt, es, fields, [], false), ElementsToJson(rt, es, fields[key := value], [], false), key, value)
    decreases |es|
  {
    hide ElementJson;
    if es != [] && ElementJson(rt, es[0]).Ok? {
      var v := ElementJson(rt, es[0]).value;
      assert fields[es[0].key := v][key := value] == fields[key := value][es[0].key := v];
      MemberCommutes(rt, es[1..], fields[es[0].key := v], key, value);
    }
  }

  lemma {:induction false} MemberInserted(
    rt: Runtime, xs: seq<Element>, e: Element, ys: seq<Element>, fields: map<Bytes, Json>
  )
    requires ElementJson(rt, e).Ok? && forall y | y in xs + ys :: y.key != e.key
    ensures OneMore(ElementsToJson(rt, xs + ys, fields, [], false), ElementsToJson(rt, xs + [e] + ys, fields, [], false),
                    e.key, ElementJson(rt, e).value)
    decreases |xs|
  {
    hide ElementJson;
    if xs == [] {
      assert xs + ys == ys && (xs + [e] + ys)[1..] == ys;
      MemberCommutes(rt, ys, fields, e.key, ElementJson(rt, e).value);
    } else {
      assert (xs + ys)[1..] == xs[1..] + ys && (xs + [e] + ys)[1..] == xs[1..] + [e] + ys;
      if ElementJson(rt, xs[0]).Ok? {
        MemberInserted(rt, xs[1..], e, ys, fields[xs[0].key := ElementJson(rt, xs[0]).value]);
      }
    }
  }

  // ---------------------------------------------------------------- the other fields

  /** A summary without the fields that only replies carry. */
  function Core(s: Summary): Summary {
    s.(ok := None, code := None, affected := None, authDone := None)
  }

  lemma KindCore(rt: Runtime, a: Summary, b: Summary, kind: KeyKind, ty: byte, v: Bytes)
    requires Core(a) == Core(b)
    ensures Core(AbsorbKind(rt, a, kind, ty, v, 0, Some(|v|), true)) == Core(AbsorbKind(rt, b, kind, ty, v, 0, Some(|v|), true))
  {
    hide ReadString, ReadBoolish, ReadI32ish, ReadU64ish, ScramUser, Summarize, Statements;
    match kind
    case SpeculativeKey =>
    case DeletesKey =>
    case _ =>
  }

  lemma {:induction false} FoldCore(rt: Runtime, a: Summary, b: Summary, es: seq<Element>)
    requires Core(a) == Core(b)
    ensures Core(Fold(rt, a, false, es, true)) == Core(Fold(rt, b, false, es, true))
    decreases |es|
  {
    hide AbsorbKind, KindOf;
    if es == [] {
    } else {
      var e := es[0];
      KindCore(rt, a, b, KindOf(e.key), e.ty, e.value);
      FoldCore(rt, AbsorbElement(rt, a, false, e, true), AbsorbElement(rt, b, false, e, true), es[1..]);
    }
  }

  lemma KindDeletes(rt: Runtime, s: Summary, scan: Scan, kind: KeyKind, ty: byte, v: Bytes)
    requires kind != DeletesKey
    ensures AbsorbKind(rt, AdoptDeletes(s, scan), kind, ty, v, 0, Some(|v|), true) ==
            AdoptDeletes(AbsorbKind(rt, s, kind, ty, v, 0, Some(|v|), true), scan)
  {
    hide ReadString, ReadBoolish, ReadI32ish, ReadU64ish, ScramUser, Summarize;
    match kind
    case SpeculativeKey =>
    case _ =>
  }

  lemma {:induction false} FoldDeletes(rt: Runtime, s: Summary, scan: Scan, es: seq<Element>)
    requires forall e | e in es :: e.key != Ascii("deletes")
    ensures Fold(rt, AdoptDeletes(s, scan), false, es, true) == AdoptDeletes(Fold(rt, s, false, es, true), scan)
    decreases |es|
  {
    hide AbsorbKind, AdoptDeletes, KindOf;
    if es == [] {
    } else {
      var e := es[0];
      KindIsDeletes(e.key);
      KindDeletes(rt, s, scan, KindOf(e.key), e.ty, e.value);
      FoldDeletes(rt, AbsorbElement(rt, s, false, e, true), scan, es[1..]);
    }
  }

  lemma KindIsDeletes(key: Bytes)
    ensures KindOf(key) == DeletesKey <==> key == Ascii("deletes")
  {
    var d := Ascii("deletes");
    assert |d| == 7;
    assert d[0] == 0x64;
    if key == d {
      assert Ascii("payload")[0] == 0x70;
    }
  }

  lemma {:induction false} FoldSplit(rt: Runtime, s: Summary, first: bool, xs: seq<Element>, ys: seq<Element>)
    requires xs != []
    ensures Fold(rt, s, first, xs + ys, true) == Fold(rt, Fold(rt, s, first, xs, true), false, ys, true)
    decreases |xs|
  {
    hide AbsorbElement;
    var s' := AbsorbElement(rt, s, first, xs[0], true);
    assert (xs + ys)[1..] == xs[1..] + ys;
    if |xs| == 1 {
      assert xs[1..] == [] && xs[1..] + ys == ys;
      assert Fold(rt, s', false, [], true) == s';
    } else {
      FoldSplit(rt, s', false, xs[1..], ys);
    }
  }

  /** What the two forms leave in the summary, apart from the query. */
  lemma FoldForms(rt: Runtime, xs: seq<Element>, e: Element, ys: seq<Element>)
    requires xs != [] && e.ty == TYPE_ARRAY && forall y | y in xs + ys :: y.key != e.key
    ensures var inline := Fold(rt, EMPTY, true, xs + [e] + ys, true);
            var body := Fold(rt, EMPTY, true, xs + ys, true);
            Core(inline) == Core(if e.key == Ascii("deletes") then AdoptDeletes(body, Statements(rt, e.value)) else body)
  {
    hide Fold, AbsorbElement, KindOf, Statements;
    var s := Fold(rt, EMPTY, true, xs, true);
    assert xs + [e] + ys == xs + ([e] + ys);
    FoldSplit(rt, EMPTY, true, xs, [e] + ys);
    FoldSplit(rt, EMPTY, true, xs, ys);
    FoldOne(rt, s, e, ys);
    ArrayAbsorbed(rt, s, e);
    if e.key == Ascii("deletes") {
      FoldDeletes(rt, s, Statements(rt, e.value), ys);
    } else {
      FoldCore(rt, AbsorbElement(rt, s, false, e, true), s, ys);
    }
  }

  lemma FoldOne(rt: Runtime, s: Summary, e: Element, ys: seq<Element>)
    ensures Fold(rt, s, false, [e] + ys, true) == Fold(rt, AbsorbElement(rt, s, false, e, true), false, ys, true)
  {
    assert ([e] + ys)[1..] == ys;
  }

  lemma ArrayAbsorbed(rt: Runtime, s: Summary, e: Element)
    requires e.ty == TYPE_ARRAY
    ensures e.key == Ascii("deletes") ==> AbsorbElement(rt, s, false, e, true) == AdoptDeletes(s, Statements(rt, e.value))
    ensures e.key != Ascii("deletes") ==> Core(AbsorbElement(rt, s, false, e, true)) == Core(s)
  {
    hide KindOf, Statements, AdoptDeletes;
    KindIsDeletes(e.key);
    assert e.value[0..|e.value|] == e.value;
  }

  // ---------------------------------------------------------------- whole messages

  /** The fields of a command besides the array, and what they must satisfy. */
  ghost predicate Statement(
    rt: Runtime, xs: seq<Element>, ys: seq<Element>, identifier: Bytes, keys: seq<Bytes>, docs: seq<Bytes>
  ) {
    && xs != [] && ValidElements(rt, xs + ys)
    && 0 !in identifier && rt.utf8(identifier) && (forall e | e in xs + ys :: e.key != identifier)
    && |keys| == |docs| && Keys(rt, keys) && Convertible(rt, docs)
  }

  /** What the document sequence says about the deletes, if it is one of deletes. */
  ghost function DeletesOf(rt: Runtime, identifier: Bytes, docs: seq<Bytes>): Option<(Option<DeleteScope>, nat)> {
    if identifier == Ascii("deletes") && Limited(rt, docs) then
      var t := TallyOf(rt, docs, NOTHING);
      Some((ScopeOf(t), t.statements))
    else None
  }

  ghost function Sequenced(rt: Runtime, body: Summary, identifier: Bytes, docs: seq<Bytes>): Sections
    requires Convertible(rt, docs)
  {
    Sections(Some(body), DeletesOf(rt, identifier, docs), [(identifier, Converted(rt, docs))])
  }

  /** The summary of the inline form is that of the body with the sequence merged in. */
  ghost predicate SameSummary(rt: Runtime, inlineDoc: Bytes, bodyDoc: Bytes, identifier: Bytes, docs: seq<Bytes>)
    requires Convertible(rt, docs)
  {
    var inline, body := Summarize(rt, inlineDoc, true), Summarize(rt, bodyDoc, true);
    && inline.Ok? && body.Ok?
    && Core(inline.value) == Core(Merged(body.value, Sequenced(rt, body.value, identifier, docs)))
  }

  lemma SummariesMatch(
    rt: Runtime, xs: seq<Element>, ys: seq<Element>, identifier: Bytes, keys: seq<Bytes>, docs: seq<Bytes>
  )
    requires Statement(rt, xs, ys, identifier, keys, docs)
    requires |Serialize(ArrayElements(keys, docs))| < I32_LIMIT
    requires |Serialize(xs + [Inline(identifier, keys, docs)] + ys)| < I32_LIMIT
    requires |Serialize(xs + ys)| < I32_LIMIT
    ensures SameSummary(rt, Serialize(xs + [Inline(identifier, keys, docs)] + ys), Serialize(xs + ys), identifier, docs)
  {
    hide Serialize, Fold, ParseFrom, ContainerToJson, ElementsToJson, Statements, TallyOf, ScopeOf, Inline, ElementJson,
      SkipValue, Converted, StatementLimit, Merged, WithQuery;
    var e := Inline(identifier, keys, docs);
    InlineShape(identifier, keys, docs);
    LimitsAccepted(rt, docs);
    InlineValue(rt, identifier, keys, docs);
    WithArrayValid(rt, xs, e, ys);
    ParseSerialize(rt, xs + [e] + ys);
    ParseSerialize(rt, xs + ys);
    FoldForms(rt, xs, e, ys);
    TwoFormsOneSummary(rt, keys, docs);
    ConvertSerialized(rt, xs + [e] + ys, false);
    ConvertSerialized(rt, xs + ys, false);
    MemberInserted(rt, xs, e, ys, map[]);
    MergeMatches(rt, Fold(rt, EMPTY, true, xs + [e] + ys, true), Fold(rt, EMPTY, true, xs + ys, true),
                 DeletesOf(rt, identifier, docs), identifier, Converted(rt, docs),
                 ContainerToJson(rt, Serialize(xs + [e] + ys), false), ContainerToJson(rt, Serialize(xs + ys), false),
                 Serialize(xs + [e] + ys), Serialize(xs + ys));
  }

  lemma InlineShape(identifier: Bytes, keys: seq<Bytes>, docs: seq<Bytes>)
    requires |keys| == |docs|
    ensures Inline(identifier, keys, docs).key == identifier && Inline(identifier, keys, docs).ty == TYPE_ARRAY
    ensures Inline(identifier, keys, docs).value == Serialize(ArrayElements(keys, docs))
  {
  }

  ghost predicate Limited(rt: Runtime, docs: seq<Bytes>) {
    forall d | d in docs :: StatementLimit(rt, d).Ok?
  }

  lemma LimitsAccepted(rt: Runtime, docs: seq<Bytes>)
    requires Convertible(rt, docs)
    ensures Limited(rt, docs)
  {
    hide ContainerToJson, StatementLimit;
    forall d | d in docs ensures StatementLimit(rt, d).Ok? {
      ConvertibleLimit(rt, d);
    }
  }

  lemma WithArrayValid(rt: Runtime, xs: seq<Element>, e: Element, ys: seq<Element>)
    requires ValidElements(rt, xs + ys) && ValidElement(rt, e)
    ensures ValidElements(rt, xs + [e] + ys)
  {
    hide ValidElement;
    forall x | x in xs + [e] + ys ensures ValidElement(rt, x) {
      if x != e { assert x in xs + ys; }
    }
  }

  lemma InsertOne(fields: map<Bytes, Json>, identifier: Bytes, values: seq<Json>)
    ensures InsertAll(fields, [(identifier, values)]) == fields[identifier := List(values)]
  {
    var one: seq<(Bytes, seq<Json>)> := [(identifier, values)];
    assert one[1..] == [];
  }

  /** Merging a document sequence into the body's summary gives the inline summary. */
  lemma MergeMatches(
    rt: Runtime, inline: Summary, body: Summary, deletes: Option<(Option<DeleteScope>, nat)>, identifier: Bytes,
    values: seq<Json>, inlineJson: Decoded<Json>, bodyJson: Decoded<Json>, inlineDoc: Bytes, bodyDoc: Bytes
  )
    requires Core(inline) == Core(if deletes.Some? then AdoptDeletes(body, Ok(deletes.value)) else body)
    requires inlineJson == ContainerToJson(rt, inlineDoc, false) && bodyJson == ContainerToJson(rt, bodyDoc, false)
    requires OneMore(bodyJson, inlineJson, identifier, List(values))
    ensures var b := WithQuery(rt, body, bodyDoc);
            Core(WithQuery(rt, inline, inlineDoc)) ==
            Core(Merged(b, Sections(Some(b), deletes, [(identifier, values)])))
  {
    hide ContainerToJson, CapturesQuery;
    assert inline.firstKey == Core(inline).firstKey;
    if bodyJson.Ok? { InsertOne(bodyJson.value.fields, identifier, values); }
  }

  // ---------------------------------------------------------------- payloads

  function BodyPayload(flags: nat, doc: Bytes, checksum: Bytes): Bytes
    requires flags < U32_LIMIT
  {
    U32Bytes(flags) + [0] + doc + checksum
  }

  function SectionBytes(identifier: Bytes, documents: Bytes): (b: Bytes)
    ensures |b| == 5 + |identifier| + |documents|
  {
    LengthBytes(5 + |identifier| + |documents|) + identifier + [0] + documents
  }

  function SequencePayload(flags: nat, doc: Bytes, identifier: Bytes, documents: Bytes, checksum: Bytes): Bytes
    requires flags < U32_LIMIT
  {
    U32Bytes(flags) + [0] + doc + [1] + SectionBytes(identifier, documents) + checksum
  }

  lemma BodyAt(rt: Runtime, payload: Bytes, end: nat, offset: nat, doc: Bytes, acc: Sections)
    requires end <= |payload| && offset + |doc| <= end && payload[offset..offset + |doc|] == doc
    requires Framed(doc) && Summarize(rt, doc, true).Ok? && acc.summary.None?
    ensures BodySection(rt, payload, end, offset, acc) ==
            Ok((acc.(summary := Some(Summarize(rt, doc, true).value)), offset + |doc|))
  {
    hide Summarize, I32At;
    SliceWindow(payload, offset, doc);
    WindowI32(doc, 0, payload, offset, |doc|);
  }

  lemma SectionAt(rt: Runtime, payload: Bytes, end: nat, offset: nat, identifier: Bytes, documents: Bytes, acc: Sections)
    requires 0 !in identifier && rt.utf8(identifier) && |SectionBytes(identifier, documents)| < I32_LIMIT
    requires end <= |payload| && offset + |SectionBytes(identifier, documents)| <= end
    requires payload[offset..offset + |SectionBytes(identifier, documents)|] == SectionBytes(identifier, documents)
    requires AddSequence(rt, identifier, documents, acc).Ok?
    ensures SequenceSection(rt, payload, end, offset, acc) ==
            Ok((AddSequence(rt, identifier, documents, acc).value, offset + |SectionBytes(identifier, documents)|))
  {
    hide AddSequence, I32At, LengthBytes, ReadCString;
    var b := SectionBytes(identifier, documents);
    var n, k := |b|, |identifier|;
    SliceWindow(payload, offset, b);
    assert b[0..0 + 4] == LengthBytes(n);
    LengthRoundTrip(b, 0, n);
    WindowI32(b, 0, payload, offset, n);
    assert b[4..4 + k] == identifier && b[4 + k] == 0 && b[5 + k..5 + k + |documents|] == documents;
    WindowPart(b, 0, payload, offset, n, 4, k);
    WindowAt(b, 0, payload, offset, n, 4 + k);
    CStringAt(rt, payload, offset + 4, identifier);
    WindowPart(b, 0, payload, offset, n, 5 + k, |documents|);
  }

  lemma Added(rt: Runtime, identifier: Bytes, docs: seq<Bytes>, body: Summary)
    requires Convertible(rt, docs)
    ensures AddSequence(rt, identifier, Concat(docs), Sections(Some(body), None, [])) == Ok(Sequenced(rt, body, identifier, docs))
  {
    hide SequenceFrom, SequenceToJson, Converted, StatementLimit, TallyOf, ContainerToJson, ScopeOf;
    LimitsAccepted(rt, docs);
    SequenceBody(rt, [], docs, Concat(docs), NOTHING);
    SequenceJson(rt, [], docs, Concat(docs), []);
    assert [] + Converted(rt, docs) == Converted(rt, docs);
    var none: seq<(Bytes, seq<Json>)> := [];
    assert none + [(identifier, Converted(rt, docs))] == [(identifier, Converted(rt, docs))];
  }

  lemma PayloadParts(flags: nat, doc: Bytes, rest: Bytes)
    requires flags < U32_LIMIT
    ensures var p := U32Bytes(flags) + [0] + doc + rest;
            && |p| == 5 + |doc| + |rest| && U32At(p, 0) == flags && p[4] == 0 && p[5..5 + |doc|] == doc
            && p[5 + |doc|..] == rest
  {
    hide U32Bytes, U32At;
    var p := U32Bytes(flags) + [0] + doc + rest;
    assert p[0..0 + 4] == U32Bytes(flags);
    U32Anywhere(p, 0, flags);
  }

  lemma DecodeBody(rt: Runtime, env: Envelope, flags: nat, doc: Bytes, checksum: Bytes)
    requires flags < U32_LIMIT && |checksum| == ChecksumBytes(flags) && Framed(doc) && Summarize(rt, doc, true).Ok?
    ensures DecodeOpMsg(rt, env, BodyPayload(flags, doc, checksum)) ==
            Ok(OpMsgMessage(env, flags, Summarize(rt, doc, true).value))
  {
    hide Summarize, OpMsgMessage, U32Bytes, U32At, I32At, BodySection, SequenceSection;
    var p := BodyPayload(flags, doc, checksum);
    PayloadParts(flags, doc, checksum);
    BodyAt(rt, p, 5 + |doc|, 5, doc, NO_SECTIONS);
    OneSection(rt, p, 5 + |doc|, Sections(Some(Summarize(rt, doc, true).value), None, []));
    MergeNothing(Summarize(rt, doc, true).value);
  }

  lemma MergeNothing(s: Summary)
    ensures Merged(s, Sections(Some(s), None, [])) == s
  {
    if s.query.Some? && s.query.value.Object? {
      assert Object(s.query.value.fields) == s.query.value;
    }
  }

  lemma DecodeSequenced(
    rt: Runtime, env: Envelope, flags: nat, doc: Bytes, identifier: Bytes, docs: seq<Bytes>, checksum: Bytes
  )
    requires flags < U32_LIMIT && |checksum| == ChecksumBytes(flags) && Framed(doc) && Summarize(rt, doc, true).Ok?
    requires 0 !in identifier && rt.utf8(identifier) && Convertible(rt, docs)
    requires |SectionBytes(identifier, Concat(docs))| < I32_LIMIT
    ensures var body := Summarize(rt, doc, true).value;
            DecodeOpMsg(rt, env, SequencePayload(flags, doc, identifier, Concat(docs), checksum)) ==
            Ok(OpMsgMessage(env, flags, Merged(body, Sequenced(rt, body, identifier, docs))))
  {
    hide Summarize, OpMsgMessage, U32Bytes, U32At, I32At, BodySection, SequenceSection, Merged, AddSequence, Sequenced,
      SectionBytes, Concat;
    var p := SequencePayload(flags, doc, identifier, Concat(docs), checksum);
    var section := SectionBytes(identifier, Concat(docs));
    assert p == U32Bytes(flags) + [0] + doc + ([1] + section + checksum);
    PayloadParts(flags, doc, [1] + section + checksum);
    var end, at := |p| - |checksum|, 5 + |doc|;
    var body := Summarize(rt, doc, true).value;
    BodyAt(rt, p, end, 5, doc, NO_SECTIONS);
    TailParts(p, at, section, checksum);
    Added(rt, identifier, docs, body);
    SectionAt(rt, p, end, at + 1, identifier, Concat(docs), Sections(Some(body), None, []));
    TwoSections(rt, p, end, at, Sections(Some(body), None, []), Sequenced(rt, body, identifier, docs));
    SequencedBody(rt, body, identifier, docs);
  }

  lemma SequencedBody(rt: Runtime, body: Summary, identifier: Bytes, docs: seq<Bytes>)
    requires Convertible(rt, docs)
    ensures Sequenced(rt, body, identifier, docs).summary == Some(body)
  {
  }

  lemma TailParts(p: Bytes, at: nat, section: Bytes, checksum: Bytes)
    requires at <= |p| && p[at..] == [1] + section + checksum
    ensures |p| == at + 1 + |section| + |checksum| && p[at] == 1 && p[at + 1..at + 1 + |section|] == section
  {
    var t := p[at..];
    assert p[at + 1..at + 1 + |section|] == t[1..1 + |section|];
  }

  lemma OneSection(rt: Runtime, p: Bytes, end: nat, first: Sections)
    requires 4 < end <= |p| && p[4] == 0
    requires BodySection(rt, p, end, 5, NO_SECTIONS) == Ok((first, end))
    ensures SectionsFrom(rt, p, end, 4, NO_SECTIONS) == Ok(first)
  {
    hide BodySection, SequenceSection;
    assert SectionsFrom(rt, p, end, end, first) == Ok(first);
  }

  /** A body and then a document sequence, and no more. */
  lemma TwoSections(rt: Runtime, p: Bytes, end: nat, at: nat, first: Sections, both: Sections)
    requires 4 < at < end <= |p| && p[4] == 0 && p[at] == 1
    requires BodySection(rt, p, end, 5, NO_SECTIONS) == Ok((first, at))
    requires SequenceSection(rt, p, end, at + 1, first) == Ok((both, end))
    ensures SectionsFrom(rt, p, end, 4, NO_SECTIONS) == Ok(both)
  {
    hide BodySection, SequenceSection;
    assert SectionsFrom(rt, p, end, end, both) == Ok(both);
    assert SectionsFrom(rt, p, end, at, first) == Ok(both);
  }

  /** The sizes are ones a frame can carry. */
  ghost predicate Fits(
    xs: seq<Element>, ys: seq<Element>, identifier: Bytes, keys: seq<Bytes>, docs: seq<Bytes>, checksum: Bytes, maxMessage: nat
  )
    requires |keys| == |docs|
  {
    var inline, body := Serialize(xs + [Inline(identifier, keys, docs)] + ys), Serialize(xs + ys);
    && 21 + |inline| + |checksum| < I32_LIMIT && 21 + |inline| + |checksum| <= maxMessage
    && |Serialize(ArrayElements(keys, docs))| < I32_LIMIT
    && 22 + |body| + |SectionBytes(identifier, Concat(docs))| + |checksum| < I32_LIMIT
    && 22 + |body| + |SectionBytes(identifier, Concat(docs))| + |checksum| <= maxMessage
  }

  lemma CommandOfCore(a: Summary, b: Summary)
    requires Core(a) == Core(b)
    ensures CommandOf(a) == CommandOf(b)
  {
    assert CommandOf(a) == CommandOf(Core(a));
    assert CommandOf(b) == CommandOf(Core(b));
  }

  /** The inline array and the document sequence are two spellings of one command: both
      frames decode, and to the same message but for its length on the wire. */
  lemma TwoFormsOneCommand(
    rt: Runtime, requestId: int, flags: nat, xs: seq<Element>, ys: seq<Element>, identifier: Bytes,
    keys: seq<Bytes>, docs: seq<Bytes>, checksum: Bytes, maxMessage: nat
  )
    requires -I32_LIMIT <= requestId < I32_LIMIT && flags < U32_LIMIT && |checksum| == ChecksumBytes(flags)
    requires Statement(rt, xs, ys, identifier, keys, docs)
    requires Fits(xs, ys, identifier, keys, docs, checksum, maxMessage)
    ensures var inline := BodyPayload(flags, Serialize(xs + [Inline(identifier, keys, docs)] + ys), checksum);
            var sequenced := SequencePayload(flags, Serialize(xs + ys), identifier, Concat(docs), checksum);
            var a := DecodeFrame(rt, Frame(requestId, 0, OP_MSG, inline), maxMessage);
            var b := DecodeFrame(rt, Frame(requestId, 0, OP_MSG, sequenced), maxMessage);
            && a.Ok? && b.Ok?
            && a.value.command.Some?
            && a.value == b.value.(wireBytes := a.value.wireBytes)
  {
    hide Serialize, Summarize, Merged, DecodeOpMsg, Frame, DecodeFrame, Sequenced, SectionBytes, Core, CommandOf,
      ElementBytes, Body, Concat, U32Bytes, Inline, ValidElement;
    var e := Inline(identifier, keys, docs);
    var inlineDoc, bodyDoc := Serialize(xs + [e] + ys), Serialize(xs + ys);
    SummariesMatch(rt, xs, ys, identifier, keys, docs);
    SerializeFramed(xs + [e] + ys);
    SerializeFramed(xs + ys);
    var inline := BodyPayload(flags, inlineDoc, checksum);
    var sequenced := SequencePayload(flags, bodyDoc, identifier, Concat(docs), checksum);
    DecodePrinted(rt, requestId, 0, OP_MSG, inline, maxMessage);
    DecodePrinted(rt, requestId, 0, OP_MSG, sequenced, maxMessage);
    DecodeBody(rt, Envelope(requestId, 0, 16 + |inline|, false), flags, inlineDoc, checksum);
    DecodeSequenced(rt, Envelope(requestId, 0, 16 + |sequenced|, false), flags, bodyDoc, identifier, docs, checksum);
    var i, b := Summarize(rt, inlineDoc, true).value, Summarize(rt, bodyDoc, true).value;
    CommandOfCore(i, Merged(b, Sequenced(rt, b, identifier, docs)));
    InlineValue(rt, identifier, keys, docs);
    WithArrayValid(rt, xs, e, ys);
    FirstNames(rt, xs + [e] + ys, i);
  }

  /** A document with an element has a command. */
  lemma FirstNames(rt: Runtime, es: seq<Element>, s: Summary)
    requires es != [] && ValidElements(rt, es) && |Serialize(es)| < I32_LIMIT
    requires Summarize(rt, Serialize(es), true) == Ok(s)
    ensures CommandOf(s).Some?
  {
    hide Serialize, Fold, ContainerToJson, ParseFrom, CapturesQuery;
    ParseSerialize(rt, es);
    FoldNames(rt, EMPTY, true, es);
  }

  lemma {:induction false} FoldNames(rt: Runtime, s: Summary, first: bool, es: seq<Element>)
    requires s.firstKey.Some? || (first && es != [])
    ensures Fold(rt, s, first, es, true).firstKey.Some?
    decreases |es|
  {
    hide AbsorbKind, KindOf;
    if es == [] {
    } else {
      var e := es[0];
      var n := if first then NameCommand(rt, s, e.key, e.ty, e.value, 0) else s;
      KindNames(rt, n, KindOf(e.key), e.ty, e.value);
      FoldNames(rt, AbsorbElement(rt, s, first, e, true), false, es[1..]);
    }
  }

  lemma KindNames(rt: Runtime, s: Summary, kind: KeyKind, ty: byte, v: Bytes)
    ensures AbsorbKind(rt, s, kind, ty, v, 0, Some(|v|), true).firstKey == s.firstKey
  {
    hide ReadString, ReadBoolish, ReadI32ish, ReadU64ish, ScramUser, Summarize, Statements;
  }
}
