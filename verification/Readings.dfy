/** What a summary says, field by field, read off the document's elements: each field is
    the last value, in element order, of the keys that write it. Stated without the
    step of the summariser, for every list of valid elements. */
module Readings {
  import opened Primitives
  import opened Bson
  import opened Elements
  import opened Deletes
  import opened Json
  import opened Summaries
  import Scram

  const STRING: byte := 2
  const DOCUMENT: byte := 3
  const ARRAY: byte := 4
  const BINARY: byte := 5

  /** The last element with this key and, where one is given, this type. */
  function LastWith(es: seq<Element>, key: string, ty: Option<byte>): Option<Element> {
    if es == [] then None
    else
      var e := es[|es| - 1];
      if e.key == Ascii(key) && (ty.None? || e.ty == ty.value) then Some(e) else LastWith(es[..|es| - 1], key, ty)
  }

  /** The string in an element, if there is one and it can be read. */
  function TextIn(rt: Runtime, e: Option<Element>): Option<Bytes> {
    var e :- e;
    ReadString(rt, e.value, 0).ToOption()
  }

  function FlagIn(rt: Runtime, e: Option<Element>): Option<bool> {
    var e :- e;
    ReadBoolish(rt, e.value, 0, e.ty)
  }

  /** The elements of a nested `speculativeAuthenticate` document, where it counts. */
  function Nested(rt: Runtime, e: Element, deep: bool): Option<seq<Element>> {
    if deep && e.key == Ascii("speculativeAuthenticate") && e.ty == DOCUMENT then Parse(rt, e.value).ToOption() else None
  }

  function Mechanism(rt: Runtime, es: seq<Element>, deep: bool): Option<Bytes>
    decreases deep, |es|
  {
    if es == [] then None
    else
      var e, before := es[|es| - 1], es[..|es| - 1];
      if e.key == Ascii("mechanism") && e.ty == STRING then ReadString(rt, e.value, 0).ToOption()
      else
        var nested := Nested(rt, e, deep);
        if nested.Some? && Mechanism(rt, nested.value, false).Some? then Mechanism(rt, nested.value, false)
        else Mechanism(rt, before, deep)
  }

  /** The user a document names: in `user`, in a SCRAM `payload`, or in a nested exchange. */
  function User(rt: Runtime, es: seq<Element>, deep: bool): Option<Bytes>
    decreases deep, |es|
  {
    if es == [] then None
    else
      var e, before := es[|es| - 1], es[..|es| - 1];
      if e.key == Ascii("user") && e.ty == STRING then ReadString(rt, e.value, 0).ToOption()
      else if e.key == Ascii("payload") && e.ty == BINARY && PayloadUser(rt, e).Some? then PayloadUser(rt, e)
      else
        var nested := Nested(rt, e, deep);
        if nested.Some? && User(rt, nested.value, false).Some? then User(rt, nested.value, false)
        else User(rt, before, deep)
  }

  function PayloadUser(rt: Runtime, e: Element): Option<Bytes> {
    var payload :- ReadBinary(e.value, 0).ToOption();
    Scram.ParsePrincipal(rt, payload)
  }

  function Done(rt: Runtime, es: seq<Element>, deep: bool): Option<bool>
    decreases deep, |es|
  {
    if es == [] then None
    else
      var e, before := es[|es| - 1], es[..|es| - 1];
      if e.key == Ascii("done") then ReadBoolish(rt, e.value, 0, e.ty)
      else
        var nested := Nested(rt, e, deep);
        if nested.Some? && Done(rt, nested.value, false).Some? then Done(rt, nested.value, false)
        else Done(rt, before, deep)
  }

  /** A nested exchange is one that starts with `saslStart`, in any case. */
  function Speculative(rt: Runtime, es: seq<Element>, deep: bool): bool {
    if es == [] then false
    else
      var nested := Nested(rt, es[|es| - 1], deep);
      if nested.Some? then nested.value != [] && Spelled(nested.value[0].key, "saslstart")
      else Speculative(rt, es[..|es| - 1], deep)
  }

  /** The scan of the last `deletes` array that can be scanned. */
  function DeleteScan(rt: Runtime, es: seq<Element>): Option<(Option<DeleteScope>, nat)> {
    if es == [] then None
    else
      var e := es[|es| - 1];
      if e.key == Ascii("deletes") && e.ty == ARRAY && Statements(rt, e.value).Ok? then Some(Statements(rt, e.value).value)
      else DeleteScan(rt, es[..|es| - 1])
  }

  /** The commands whose documents are exported. */
  predicate Exported(name: Bytes) {
    Spelled(name, "find") || Spelled(name, "aggregate") || Spelled(name, "insert") || Spelled(name, "update")
    || Spelled(name, "delete")
  }

  /** The fields of a summary, apart from the query. */
  ghost predicate Reads(rt: Runtime, es: seq<Element>, deep: bool, s: Summary) {
    && s.firstKey == (if es == [] then None else Some(es[0].key))
    && s.firstString == (if es != [] && es[0].ty == STRING then ReadString(rt, es[0].value, 0).ToOption() else None)
    && s.database == TextIn(rt, LastWith(es, "$db", Some(STRING)))
    && s.collection == TextIn(rt, LastWith(es, "collection", Some(STRING)))
    && s.codeName == TextIn(rt, LastWith(es, "codeName", Some(STRING)))
    && s.ok == FlagIn(rt, LastWith(es, "ok", None))
    && s.code == (var e :- LastWith(es, "code", None); ReadI32ish(rt, e.value, 0, e.ty))
    && s.affected == (var e :- LastWith(es, "n", None); ReadU64ish(rt, e.value, 0, e.ty))
    && s.mechanism == Mechanism(rt, es, deep)
    && s.principal == User(rt, es, deep)
    && s.authDone == Done(rt, es, deep)
    && s.speculative == Speculative(rt, es, deep)
    && s.deleteScope == (var scan :- DeleteScan(rt, es); scan.0)
    && s.deleteStatements == (var scan :- DeleteScan(rt, es); Some(scan.1))
  }

  // ---------------------------------------------------------------- one element

  /** The keys by name. */
  lemma KeyNames(key: Bytes)
    ensures KindOf(key) == DatabaseKey <==> key == Ascii("$db")
    ensures KindOf(key) == CollectionKey <==> key == Ascii("collection")
    ensures KindOf(key) == OkKey <==> key == Ascii("ok")
    ensures KindOf(key) == CodeKey <==> key == Ascii("code")
    ensures KindOf(key) == CountKey <==> key == Ascii("n")
    ensures KindOf(key) == DoneKey <==> key == Ascii("done")
    ensures KindOf(key) == CodeNameKey <==> key == Ascii("codeName")
    ensures KindOf(key) == MechanismKey <==> key == Ascii("mechanism")
    ensures KindOf(key) == UserKey <==> key == Ascii("user")
    ensures KindOf(key) == PayloadKey <==> key == Ascii("payload")
    ensures KindOf(key) == SpeculativeKey <==> key == Ascii("speculativeAuthenticate")
    ensures KindOf(key) == DeletesKey <==> key == Ascii("deletes")
  {
    assert Ascii("code")[0] == 0x63 && Ascii("done")[0] == 0x64 && Ascii("user")[0] == 0x75;
    assert Ascii("payload")[0] == 0x70 && Ascii("deletes")[0] == 0x64;
    assert |Ascii("$db")| == 3 && |Ascii("collection")| == 10 && |Ascii("ok")| == 2 && |Ascii("n")| == 1;
    assert |Ascii("codeName")| == 8 && |Ascii("mechanism")| == 9 && |Ascii("speculativeAuthenticate")| == 23;
  }

  lemma {:induction false} FoldLast(rt: Runtime, s: Summary, first: bool, es: seq<Element>, deep: bool)
    requires es != []
    ensures var n := |es| - 1;
            Fold(rt, s, first, es, deep) == AbsorbElement(rt, Fold(rt, s, first, es[..n], deep), first && n == 0, es[n], deep)
    decreases |es|
  {
    hide AbsorbElement;
    var n := |es| - 1;
    if n == 0 {
      assert es[1..] == [] && es[..0] == [];
    } else {
      FoldLast(rt, AbsorbElement(rt, s, first, es[0], deep), false, es[1..], deep);
      assert es[1..][..n - 1] == es[..n][1..];
    }
  }

  /** Every field that is simply overwritten, by the kind of key. */
  lemma KindPlain(rt: Runtime, s: Summary, kind: KeyKind, ty: byte, v: Bytes, deep: bool)
    ensures var t := AbsorbKind(rt, s, kind, ty, v, 0, Some(|v|), deep);
            var text := ReadString(rt, v, 0).ToOption();
            && t.firstKey == s.firstKey && t.firstString == s.firstString && t.query == s.query
            && t.database == (if kind == DatabaseKey && ty == STRING then text else s.database)
            && t.collection == (if kind == CollectionKey && ty == STRING then text else s.collection)
            && t.codeName == (if kind == CodeNameKey && ty == STRING then text else s.codeName)
            && t.ok == (if kind == OkKey then ReadBoolish(rt, v, 0, ty) else s.ok)
            && t.code == (if kind == CodeKey then ReadI32ish(rt, v, 0, ty) else s.code)
            && t.affected == (if kind == CountKey then ReadU64ish(rt, v, 0, ty) else s.affected)
  {
    hide ReadString, ReadBoolish, ReadI32ish, ReadU64ish, Summarize, Statements, ScramUser;
  }

  /** ... and the others. */
  lemma KindGathered(rt: Runtime, s: Summary, kind: KeyKind, ty: byte, v: Bytes, deep: bool)
    ensures var t := AbsorbKind(rt, s, kind, ty, v, 0, Some(|v|), deep);
            var text := ReadString(rt, v, 0).ToOption();
            var nested := if deep && kind == SpeculativeKey && ty == DOCUMENT then Summarize(rt, v, false).ToOption() else None;
            var scan := if kind == DeletesKey && ty == ARRAY then Statements(rt, v).ToOption() else None;
            && t.mechanism == (if kind == MechanismKey && ty == STRING then text
                               else if nested.Some? && nested.value.mechanism.Some? then nested.value.mechanism else s.mechanism)
            && t.principal == (if kind == UserKey && ty == STRING then text
                               else if kind == PayloadKey && ty == BINARY && ScramUser(rt, v, 0).Some? then ScramUser(rt, v, 0)
                               else if nested.Some? && nested.value.principal.Some? then nested.value.principal else s.principal)
            && t.authDone == (if kind == DoneKey then ReadBoolish(rt, v, 0, ty)
                              else if nested.Some? && nested.value.authDone.Some? then nested.value.authDone else s.authDone)
            && t.speculative == (if nested.Some? then nested.value.firstKey.Some?
                                   && Lower(nested.value.firstKey.value) == Ascii("saslstart") else s.speculative)
            && t.deleteScope == (if scan.Some? then scan.value.0 else s.deleteScope)
            && t.deleteStatements == (if scan.Some? then Some(scan.value.1) else s.deleteStatements)
  {
    hide ReadString, ReadBoolish, ReadI32ish, ReadU64ish, Summarize, Statements, ScramUser;
    assert v[0..|v|] == v;
  }

  // ---------------------------------------------------------------- all elements

  lemma {:induction false} ReadsPlain(rt: Runtime, es: seq<Element>, deep: bool)
    ensures var s := Fold(rt, EMPTY, true, es, deep);
            && s.firstKey == (if es == [] then None else Some(es[0].key))
            && s.firstString == (if es != [] && es[0].ty == STRING then ReadString(rt, es[0].value, 0).ToOption() else None)
            && s.database == TextIn(rt, LastWith(es, "$db", Some(STRING)))
            && s.collection == TextIn(rt, LastWith(es, "collection", Some(STRING)))
            && s.codeName == TextIn(rt, LastWith(es, "codeName", Some(STRING)))
    decreases |es|
  {
    hide Fold, AbsorbKind, KindOf, ReadString;
    if es == [] {
      FoldNothing(rt, deep);
    } else {
      var n := |es| - 1;
      ReadsPlain(rt, es[..n], deep);
      FoldLast(rt, EMPTY, true, es, deep);
      var e, before := es[n], Fold(rt, EMPTY, true, es[..n], deep);
      KeyNames(e.key);
      KindPlain(rt, if n == 0 then NameCommand(rt, before, e.key, e.ty, e.value, 0) else before, KindOf(e.key), e.ty, e.value, deep);
    }
  }

  lemma FoldNothing(rt: Runtime, deep: bool)
    ensures Fold(rt, EMPTY, true, [], deep) == EMPTY
  {
  }

  lemma {:induction false} ReadsNumbers(rt: Runtime, es: seq<Element>, deep: bool)
    ensures var s := Fold(rt, EMPTY, true, es, deep);
            && s.ok == FlagIn(rt, LastWith(es, "ok", None))
            && s.code == (var e :- LastWith(es, "code", None); ReadI32ish(rt, e.value, 0, e.ty))
            && s.affected == (var e :- LastWith(es, "n", None); ReadU64ish(rt, e.value, 0, e.ty))
    decreases |es|
  {
    hide Fold, AbsorbKind, KindOf, ReadString, ReadBoolish, ReadI32ish, ReadU64ish;
    if es == [] {
      FoldNothing(rt, deep);
    } else {
      var n := |es| - 1;
      ReadsNumbers(rt, es[..n], deep);
      FoldLast(rt, EMPTY, true, es, deep);
      var e, before := es[n], Fold(rt, EMPTY, true, es[..n], deep);
      KeyNames(e.key);
      KindPlain(rt, if n == 0 then NameCommand(rt, before, e.key, e.ty, e.value, 0) else before, KindOf(e.key), e.ty, e.value, deep);
    }
  }

  lemma {:induction false} ReadsGathered(rt: Runtime, es: seq<Element>, deep: bool)
    ensures var s := Fold(rt, EMPTY, true, es, deep);
            && s.mechanism == Mechanism(rt, es, deep) && s.principal == User(rt, es, deep)
            && s.authDone == Done(rt, es, deep) && s.speculative == Speculative(rt, es, deep)
    decreases deep, |es|
  {
    hide Fold, AbsorbKind, KindOf, ReadString, ReadBoolish, Summarize, Parse, Statements, ScramUser;
    if es == [] {
      FoldNothing(rt, deep);
    } else {
      var n := |es| - 1;
      ReadsGathered(rt, es[..n], deep);
      FoldLast(rt, EMPTY, true, es, deep);
      var e, before := es[n], Fold(rt, EMPTY, true, es[..n], deep);
      KeyNames(e.key);
      if deep && Parse(rt, e.value).Ok? {
        ReadsGathered(rt, Parse(rt, e.value).value, false);
        ReadsPlain(rt, Parse(rt, e.value).value, false);
      }
      NestedSummary(rt, e.value);
      SpelledStart(rt, e, deep);
      PayloadSame(rt, e);
      KindGathered(rt, if n == 0 then NameCommand(rt, before, e.key, e.ty, e.value, 0) else before,
                   KindOf(e.key), e.ty, e.value, deep);
    }
  }

  lemma NestedSummary(rt: Runtime, v: Bytes)
    ensures Summarize(rt, v, false).Ok? <==> Parse(rt, v).Ok?
    ensures Parse(rt, v).Ok? ==>
              var s, f := Summarize(rt, v, false).value, Fold(rt, EMPTY, true, Parse(rt, v).value, false);
              && s.firstKey == f.firstKey && s.mechanism == f.mechanism && s.principal == f.principal && s.authDone == f.authDone
  {
    hide Parse, Fold, ContainerToJson, CapturesQuery;
  }

  lemma SpelledStart(rt: Runtime, e: Element, deep: bool)
    ensures var nested := Nested(rt, e, deep);
            nested.Some? && nested.value != [] ==>
              (Spelled(nested.value[0].key, "saslstart") <==> Lower(nested.value[0].key) == Ascii("saslstart"))
  {
    hide Parse;
    var nested := Nested(rt, e, deep);
    if nested.Some? && nested.value != [] { SpelledFolds(nested.value[0].key, "saslstart"); }
  }

  lemma PayloadSame(rt: Runtime, e: Element)
    ensures ScramUser(rt, e.value, 0) == PayloadUser(rt, e)
  {
  }

  lemma {:induction false} ReadsDeletes(rt: Runtime, es: seq<Element>, deep: bool)
    ensures var s := Fold(rt, EMPTY, true, es, deep);
            && s.deleteScope == (var scan :- DeleteScan(rt, es); scan.0)
            && s.deleteStatements == (var scan :- DeleteScan(rt, es); Some(scan.1))
    decreases |es|
  {
    hide Fold, AbsorbKind, KindOf, ReadString, ReadBoolish, Summarize, Statements, ScramUser;
    if es == [] {
      FoldNothing(rt, deep);
    } else {
      var n := |es| - 1;
      ReadsDeletes(rt, es[..n], deep);
      FoldLast(rt, EMPTY, true, es, deep);
      var e, before := es[n], Fold(rt, EMPTY, true, es[..n], deep);
      KeyNames(e.key);
      KindGathered(rt, if n == 0 then NameCommand(rt, before, e.key, e.ty, e.value, 0) else before,
                   KindOf(e.key), e.ty, e.value, deep);
    }
  }

  /** Every field of the summary of a document, read off its elements. */
  lemma SummaryReads(rt: Runtime, es: seq<Element>, deep: bool)
    requires ValidElements(rt, es) && |Serialize(es)| < I32_LIMIT
    ensures Summarize(rt, Serialize(es), deep).Ok?
    ensures var s := Summarize(rt, Serialize(es), deep).value;
            && Reads(rt, es, deep, s)
            && s.query == (if es != [] && Exported(es[0].key) then ContainerToJson(rt, Serialize(es), false).ToOption() else None)
  {
    hide Fold, Serialize, Parse, ContainerToJson, LastWith, Mechanism, User, Done, Speculative, DeleteScan, ReadString,
      ReadBoolish, ReadI32ish, ReadU64ish, CapturesQuery, Exported, ValidElement;
    ParseSerialize(rt, es);
    ReadsPlain(rt, es, deep);
    ReadsNumbers(rt, es, deep);
    ReadsGathered(rt, es, deep);
    ReadsDeletes(rt, es, deep);
    QueryUnset(rt, es, deep);
    if es != [] { ExportedNames(es[0].key); }
  }

  lemma ExportedNames(name: Bytes)
    ensures CapturesQuery(Lower(name)) <==> Exported(name)
  {
    SpelledFolds(name, "find");
    SpelledFolds(name, "aggregate");
    SpelledFolds(name, "insert");
    SpelledFolds(name, "update");
    SpelledFolds(name, "delete");
  }

  lemma {:induction false} QueryUnset(rt: Runtime, es: seq<Element>, deep: bool)
    ensures Fold(rt, EMPTY, true, es, deep).query.None?
    decreases |es|
  {
    hide Fold, AbsorbKind, KindOf, ReadString;
    if es == [] {
      FoldNothing(rt, deep);
    } else {
      var n := |es| - 1;
      QueryUnset(rt, es[..n], deep);
      FoldLast(rt, EMPTY, true, es, deep);
      var e, before := es[n], Fold(rt, EMPTY, true, es[..n], deep);
      KindPlain(rt, if n == 0 then NameCommand(rt, before, e.key, e.ty, e.value, 0) else before, KindOf(e.key), e.ty, e.value, deep);
    }
  }

  // ---------------------------------------------------------------- delete statements

  /** The first element with this key. */
  function FirstWith(es: seq<Element>, key: string): Option<Element> {
    if es == [] then None else if es[0].key == Ascii(key) then Some(es[0]) else FirstWith(es[1..], key)
  }

  function LimitOf(rt: Runtime, es: seq<Element>): Option<int> {
    var e :- FirstWith(es, "limit");
    ReadI32ish(rt, e.value, 0, e.ty)
  }

  lemma LimitStep(rt: Runtime, d: Bytes, offset: nat, e: Element)
    requires ValidElement(rt, e) && offset + |ElementBytes(e)| <= |d| - 1
    requires d[offset..offset + |ElementBytes(e)|] == ElementBytes(e)
    ensures LimitFrom(rt, d, offset) ==
            if e.key == Ascii("limit") then Ok(ReadI32ish(rt, e.value, 0, e.ty))
            else LimitFrom(rt, d, offset + |ElementBytes(e)|)
  {
    hide SkipValue, ReadCString, ReadI32ish, ReadBoolish, ReadU64ish, ElementBytes, SameWindow;
    ElementAt(rt, d, offset, e);
    ScalarsWindow(rt, e.value, 0, d, offset + 2 + |e.key|, |e.value|, e.ty);
  }

  lemma {:induction false} LimitBody(rt: Runtime, pre: Bytes, es: seq<Element>, d: Bytes)
    requires ValidElements(rt, es) && d == pre + Body(es) + [0]
    ensures LimitFrom(rt, d, |pre|) == Ok(LimitOf(rt, es))
    decreases |es|
  {
    hide ElementBytes, SkipValue, ReadI32ish, LimitFrom, ValidElement;
    if es == [] {
      LimitEnd(rt, d, |pre|);
    } else {
      var e := es[0];
      Regroup(pre, ElementBytes(e), Body(es[1..]), [0]);
      LimitStep(rt, d, |pre|, e);
      LimitBody(rt, pre + ElementBytes(e), es[1..], d);
    }
  }

  lemma LimitEnd(rt: Runtime, d: Bytes, offset: nat)
    requires |d| >= 1 && offset >= |d| - 1
    ensures LimitFrom(rt, d, offset) == Ok(None)
  {
  }

  /** The limit of a delete statement is its first `limit`, as a number. */
  lemma LimitReads(rt: Runtime, es: seq<Element>)
    requires ValidElements(rt, es) && |Serialize(es)| < I32_LIMIT
    ensures StatementLimit(rt, Serialize(es)) == Ok(LimitOf(rt, es))
  {
    hide LimitFrom, LimitOf, ValidElement, LengthBytes;
    SerializeFramed(es);
    LimitBody(rt, LengthBytes(|Body(es)| + 5), es, Serialize(es));
  }

  /** The scope in words: one document for each statement, many, or some of both; none if
      no statement says. */
  lemma ScopeReads(rt: Runtime, docs: seq<seq<Element>>, scanned: seq<Bytes>)
    requires |scanned| == |docs|
    requires forall i :: 0 <= i < |docs| ==> ValidElements(rt, docs[i]) && |Serialize(docs[i])| < I32_LIMIT
    requires forall i :: 0 <= i < |docs| ==> scanned[i] == Serialize(docs[i])
    ensures forall d | d in scanned :: StatementLimit(rt, d).Ok?
    ensures var r := Report(TallyOf(rt, scanned, NOTHING));
            var one := exists i :: 0 <= i < |docs| && LimitOf(rt, docs[i]) == Some(1);
            var many := exists i :: 0 <= i < |docs| && LimitOf(rt, docs[i]) == Some(0);
            && r.value.1 == SaturateU32(|docs|)
            && (r.value.0 == Some(Single) <==> one && !many)
            && (r.value.0 == Some(Multi) <==> many && !one)
            && (r.value.0 == Some(Mixed) <==> one && many)
            && (r.value.0 == None <==> !one && !many)
  {
    hide StatementLimit, LimitOf, Serialize, ValidElement, TallyOf;
    forall i | 0 <= i < |docs| ensures StatementLimit(rt, scanned[i]) == Ok(LimitOf(rt, docs[i])) {
      LimitReads(rt, docs[i]);
    }
    TallyMeaning(rt, scanned, NOTHING);
    assert forall i :: 0 <= i < |docs| ==> scanned[i] in scanned;
    assert forall d | d in scanned :: exists i :: 0 <= i < |docs| && scanned[i] == d;
  }

  /** The documents in an array, in order; what is no document is passed over. */
  function DocumentsIn(es: seq<Element>): seq<Bytes> {
    if es == [] then []
    else if es[0].ty == DOCUMENT then [es[0].value] + DocumentsIn(es[1..]) else DocumentsIn(es[1..])
  }

  lemma StatementStep(rt: Runtime, a: Bytes, offset: nat, e: Element, t: Tally)
    requires ValidElement(rt, e) && (e.ty == DOCUMENT ==> StatementLimit(rt, e.value).Ok?)
    requires offset + |ElementBytes(e)| <= |a| - 1
    requires a[offset..offset + |ElementBytes(e)|] == ElementBytes(e)
    ensures StatementsFrom(rt, a, offset, t) ==
            StatementsFrom(rt, a, offset + |ElementBytes(e)|,
                           if e.ty == DOCUMENT then Count(t, StatementLimit(rt, e.value).value) else t)
  {
    hide SkipValue, ReadCString, StatementLimit;
    ElementAt(rt, a, offset, e);
  }

  lemma {:induction false} StatementsIn(rt: Runtime, pre: Bytes, es: seq<Element>, a: Bytes, t: Tally)
    requires ValidElements(rt, es) && a == pre + Body(es) + [0]
    requires forall d | d in DocumentsIn(es) :: StatementLimit(rt, d).Ok?
    ensures StatementsFrom(rt, a, |pre|, t) == Report(TallyOf(rt, DocumentsIn(es), t))
    decreases |es|
  {
    hide StatementsFrom, ElementBytes, SkipValue, StatementLimit, Count, Report, ValidElement;
    if es == [] {
      StatementsEnd(rt, a, |pre|, t);
    } else {
      var e := es[0];
      Regroup(pre, ElementBytes(e), Body(es[1..]), [0]);
      StatementStep(rt, a, |pre|, e, t);
      assert e.ty == DOCUMENT ==> DocumentsIn(es)[1..] == DocumentsIn(es[1..]);
      StatementsIn(rt, pre + ElementBytes(e), es[1..], a, if e.ty == DOCUMENT then Count(t, StatementLimit(rt, e.value).value) else t);
    }
  }

  /** The scan of an array of statements is the tally of the documents in it. */
  lemma StatementsRead(rt: Runtime, es: seq<Element>)
    requires ValidElements(rt, es) && |Serialize(es)| < I32_LIMIT
    requires forall d | d in DocumentsIn(es) :: StatementLimit(rt, d).Ok?
    ensures Statements(rt, Serialize(es)) == Report(TallyOf(rt, DocumentsIn(es), NOTHING))
  {
    hide StatementsFrom, StatementLimit, Report, TallyOf, ValidElement, LengthBytes;
    SerializeFramed(es);
    StatementsIn(rt, LengthBytes(|Body(es)| + 5), es, Serialize(es), NOTHING);
  }
}
