/** Frames on which a prefix and the whole disagree, one for each exception that
    `FramePrefixes.PrefixFrameAgrees` makes. */
module CutFrames {
  import opened Primitives
  import opened Bson
  import opened Elements
  import opened Json
  import opened Summaries
  import opened Wire
  import opened PrefixLimits
  import SF = SequenceForms
  import PF = PrintedFrames

  // ---------------------------------------------------------------- OP_REPLY

  const OK_ZERO := Element(Ascii("ok"), 0x10, [0, 0, 0, 0])

  /** Flags, cursor and starting point all zero, one document returned. */
  const REPLY_HEADER: Bytes := [0, 0, 0, 0, 0, 0, 0, 0, 0, 0, 0, 0, 0, 0, 0, 0, 1, 0, 0, 0]

  /** The document `{ok: 0}` up to its value. */
  const OK_CUT: Bytes := [13, 0, 0, 0, 0x10, 0x6f, 0x6b, 0]

  lemma OkDocument()
    ensures Serialize([OK_ZERO]) == OK_CUT + [0, 0, 0, 0] + [0]
    ensures |Serialize([OK_ZERO])| == 13
  {
    assert [OK_ZERO][1..] == [];
    assert Body([OK_ZERO]) == ElementBytes(OK_ZERO) + Body([]);
    assert Ascii("ok") == [0x6f, 0x6b];
  }

  lemma OkWhole(rt: Runtime)
    requires rt.utf8(Ascii("ok"))
    ensures Summarize(rt, Serialize([OK_ZERO]), true).Ok?
    ensures Summarize(rt, Serialize([OK_ZERO]), true).value.ok == Some(false)
  {
    hide Serialize, Fold, Parse, AbsorbElement, ContainerToJson;
    OkDocument();
    OkElement(rt);
    ParseSerialize(rt, [OK_ZERO]);
    assert [OK_ZERO] == [OK_ZERO] + [];
    FoldOne(rt, EMPTY, true, OK_ZERO, []);
    FoldNone(rt, AbsorbElement(rt, EMPTY, true, OK_ZERO, true));
  }

  lemma OkElement(rt: Runtime)
    requires rt.utf8(Ascii("ok"))
    ensures ValidElement(rt, OK_ZERO)
    ensures AbsorbElement(rt, EMPTY, true, OK_ZERO, true).ok == Some(false)
  {
    OkKind();
    hide KindOf;
    assert I32At(OK_ZERO.value, 0) == 0;
  }

  lemma OkKind()
    ensures KindOf(Ascii("ok")) == OkKey
  {
    assert Ascii("ok")[0] == 0x6f && Ascii("$db")[0] == 0x24 && |Ascii("collection")| == 10;
  }

  lemma OkPrefix(rt: Runtime)
    requires rt.utf8(Ascii("ok"))
    ensures SummarizePrefix(rt, OK_CUT).Ok? && SummarizePrefix(rt, OK_CUT).value.ok.None?
  {
    OkKind();
    hide KindOf;
    assert Ascii("ok") == OK_CUT[5..5 + 2];
    CStringAt(rt, OK_CUT, 5, Ascii("ok"));
    hide ReadCString;
    assert I32At(OK_CUT, 0) == 13;
    assert PrefixFrom(rt, OK_CUT, 8, 4, EMPTY, true) == Absorb(rt, EMPTY, true, Ascii("ok"), 0x10, OK_CUT, 8, None, true);
  }

  /** A reply that reports a failure with flags that do not: cut before the value of `ok`
      it is taken for a success. */
  lemma ReplyOkCut(rt: Runtime, env: Envelope)
    requires rt.utf8(Ascii("ok"))
    ensures var payload, p := REPLY_HEADER + Serialize([OK_ZERO]), REPLY_HEADER + OK_CUT;
            var cut, whole := DecodeOpReplyPrefix(rt, env, p), DecodeOpReply(rt, env, payload);
            && p <= payload
            && cut.Ok? && cut.value.status.Some? && cut.value.status.value.ok == Some(true)
            && whole.Ok? && whole.value.status.Some? && whole.value.status.value.ok == Some(false)
  {
    hide Serialize, Summarize, SummarizePrefix;
    OkDocument();
    OkWhole(rt);
    OkPrefix(rt);
    var d := Serialize([OK_ZERO]);
    var payload, p := REPLY_HEADER + d, REPLY_HEADER + OK_CUT;
    assert payload == p + ([0, 0, 0, 0] + [0]);
    assert p[20..] == OK_CUT && payload[20..20 + 13] == d;
    assert I32At(payload, 16) == 1 && I32At(p, 16) == 1 && I32At(payload, 20) == 13;
    assert U32At(payload, 0) == 0 && U32At(p, 0) == 0;
  }

  // ---------------------------------------------------------------- OP_QUERY

  const NUMBERS: Bytes := [0, 0, 0, 0, 0, 0, 0, 0]

  lemma QueryDecodes(rt: Runtime, env: Envelope, namespace: Bytes, document: Bytes)
    requires 0 !in namespace && rt.utf8(namespace) && Framed(document)
    ensures DecodeOpQuery(rt, env, PF.QueryPayload(0, namespace, NUMBERS, document)) ==
            match Summarize(rt, document, true)
            case Ok(s) => Ok(OpQueryMessage(env, 0, namespace, s))
            case Err(e) => Err(e)
  {
    hide Summarize, ReadCString, OpQueryMessage, U32At, I32At, PF.QueryPayload;
    PF.QueryShape(rt, 0, namespace, NUMBERS, document);
    var p := PF.QueryPayload(0, namespace, NUMBERS, document);
    var offset := |namespace| + 13;
    assert p[offset..offset + |document|] == document;
  }

  lemma QueryPrefixDecodes(rt: Runtime, env: Envelope, namespace: Bytes, tail: Bytes)
    requires 0 !in namespace && rt.utf8(namespace)
    ensures DecodeOpQueryPrefix(rt, env, PF.QueryPayload(0, namespace, NUMBERS, tail)) ==
            match SummarizePrefix(rt, tail)
            case Ok(s) => Ok(OpQueryMessage(env, 0, namespace, s))
            case Err(e) => Err(e)
  {
    hide SummarizePrefix, ReadCString, OpQueryMessage, U32At, PF.QueryPayload;
    PF.QueryShape(rt, 0, namespace, NUMBERS, tail);
  }

  lemma DatabaseOf(env: Envelope, namespace: Bytes, s: Summary)
    requires env.responseTo == 0 && SplitNamespace(namespace).2 && s.firstKey.Some?
    ensures var c := OpQueryMessage(env, 0, namespace, s).command;
            c.Some? && c.value.database == OrElse(s.database, SplitNamespace(namespace).0)
  {
    hide SplitNamespace;
  }

  /** An element that is not about the database leaves it unknown. */
  lemma NoDatabase(rt: Runtime, command: Element)
    requires KindOf(command.key) == OtherKey
    ensures var s := AbsorbElement(rt, EMPTY, true, command, true); s.database.None? && s.firstKey.Some?
  {
    hide KindOf, ReadString;
  }

  /** A command query whose document names another database than its namespace: cut
      before that field, the namespace's is reported. */
  lemma QueryDatabaseCut(rt: Runtime, env: Envelope, namespace: Bytes, command: Element, name: Bytes)
    requires env.responseTo == 0 && 0 !in namespace && rt.utf8(namespace) && SplitNamespace(namespace).2
    requires ValidElement(rt, command) && command.value != [] && KindOf(command.key) == OtherKey
    requires ValidElement(rt, DatabaseField(name)) && rt.utf8(name) && |name| + 1 < I32_LIMIT
    requires |Serialize([command] + [DatabaseField(name)])| < I32_LIMIT
    ensures var xs, ys := [command], [DatabaseField(name)];
            var payload, p := PF.QueryPayload(0, namespace, NUMBERS, Serialize(xs + ys)), PF.QueryPayload(0, namespace, NUMBERS, CutAfter(xs, ys));
            var cut, whole := DecodeOpQueryPrefix(rt, env, p), DecodeOpQuery(rt, env, payload);
            && p <= payload
            && cut.Ok? && cut.value.command.Some? && cut.value.command.value.database == SplitNamespace(namespace).0
            && whole.Ok? && whole.value.command.Some? && whole.value.command.value.database == Some(name)
  {
    hide Serialize, Summarize, SummarizePrefix, Fold, Visible, CutAfter, DatabaseField, ValidElement, AbsorbElement, Parse,
      SplitNamespace, KindOf, OpQueryMessage, DecodeOpQuery, DecodeOpQueryPrefix, Framed;
    var c, f := command, DatabaseField(name);
    var xs, ys := [c], [f];
    PrefixAtBoundary(rt, xs, ys);
    VisibleOne(c);
    var s := AbsorbElement(rt, EMPTY, true, c, true);
    assert [c] == [c] + [] && [f] == [f] + [];
    FoldOne(rt, EMPTY, true, c, []);
    FoldNone(rt, s);
    NoDatabase(rt, c);
    QueryPrefixDecodes(rt, env, namespace, CutAfter(xs, ys));
    DatabaseOf(env, namespace, s);
    WholeDatabase(rt, c, f, name);
    SerializeFramed(xs + ys);
    QueryDecodes(rt, env, namespace, Serialize(xs + ys));
    DatabaseOf(env, namespace, Summarize(rt, Serialize(xs + ys), true).value);
    QueryPrefix(namespace, CutAfter(xs, ys), Serialize(xs + ys));
  }

  lemma VisibleOne(e: Element)
    ensures Visible([e]) == [e]
  {
    assert [e][1..] == [];
  }

  lemma QueryPrefix(namespace: Bytes, tail: Bytes, document: Bytes)
    requires tail <= document
    ensures PF.QueryPayload(0, namespace, NUMBERS, tail) <= PF.QueryPayload(0, namespace, NUMBERS, document)
  {
    assert document == tail + document[|tail|..];
    assert PF.QueryPayload(0, namespace, NUMBERS, document) == PF.QueryPayload(0, namespace, NUMBERS, tail) + document[|tail|..];
  }

  lemma WholeDatabase(rt: Runtime, c: Element, f: Element, name: Bytes)
    requires ValidElement(rt, c) && f == DatabaseField(name) && ValidElement(rt, f) && rt.utf8(name)
    requires |name| + 1 < I32_LIMIT && |Serialize([c] + [f])| < I32_LIMIT && KindOf(c.key) == OtherKey
    ensures Summarize(rt, Serialize([c] + [f]), true).Ok?
    ensures var s := Summarize(rt, Serialize([c] + [f]), true).value; s.database == Some(name) && s.firstKey.Some?
  {
    hide Serialize, Fold, DatabaseField, ValidElement, AbsorbElement, Parse, KindOf, CapturesQuery, ContainerToJson;
    ParseSerialize(rt, [c] + [f]);
    var s := AbsorbElement(rt, EMPTY, true, c, true);
    var t := AbsorbElement(rt, s, false, f, true);
    assert [f] == [f] + [];
    FoldOne(rt, EMPTY, true, c, [f]);
    FoldOne(rt, s, false, f, []);
    FoldNone(rt, t);
    NoDatabase(rt, c);
    DatabaseAbsorbed(rt, s, name);
    NameStays(rt, s, f);
  }

  lemma NameStays(rt: Runtime, s: Summary, e: Element)
    ensures AbsorbElement(rt, s, false, e, true).firstKey == s.firstKey
  {
    hide KindOf, ReadString, ReadBoolish, ReadI32ish, ReadU64ish;
  }

  // ---------------------------------------------------------------- OP_MSG with a document sequence

  /** A command sent with a document sequence, cut between its body and the sequence: the
      prefix reports a query, and it lacks what the sequence adds. */
  lemma SequenceCut(
    rt: Runtime, env: Envelope, flags: nat, doc: Bytes, identifier: Bytes, docs: seq<Bytes>, checksum: Bytes
  )
    requires env.responseTo == 0 && flags < U32_LIMIT && |checksum| == ChecksumBytes(flags)
    requires Framed(doc) && Summarize(rt, doc, true).Ok?
    requires 0 !in identifier && rt.utf8(identifier) && SF.Convertible(rt, docs)
    requires |SF.SectionBytes(identifier, Concat(docs))| < I32_LIMIT
    requires var s := Summarize(rt, doc, true).value;
             && s.firstKey.Some? && CapturesQuery(Lower(s.firstKey.value))
             && s.query.Some? && s.query.value.Object? && identifier !in s.query.value.fields
    ensures var p, payload := U32Bytes(flags) + [0] + doc, SF.SequencePayload(flags, doc, identifier, Concat(docs), checksum);
            var cut, whole := DecodeOpMsgPrefix(rt, env, p), DecodeOpMsg(rt, env, payload);
            var query := Summarize(rt, doc, true).value.query;
            && p <= payload
            && cut.Ok? && cut.value.command.Some? && cut.value.command.value.query == query
            && whole.Ok? && whole.value.command.Some?
            && whole.value.command.value.query == Some(Object(query.value.fields[identifier := List(SF.Converted(rt, docs))]))
            && whole.value.command.value.query != query
  {
    hide Summarize, U32Bytes, Merged, CapturesQuery, Concat, SF.Converted, SF.SectionBytes, SF.Sequenced, DecodeOpMsg,
      DecodeOpMsgPrefix, CommandOf, HasCollectionArgument;
    var body := Summarize(rt, doc, true).value;
    SF.DecodeSequenced(rt, env, flags, doc, identifier, docs, checksum);
    CutBody(rt, env, flags, doc);
    SequenceMerged(rt, body, identifier, docs);
    CommandQuery(body);
    CommandQuery(Merged(body, SF.Sequenced(rt, body, identifier, docs)));
    CutPayload(flags, doc, identifier, Concat(docs), checksum);
    assert identifier in body.query.value.fields[identifier := List(SF.Converted(rt, docs))];
  }

  lemma CommandQuery(s: Summary)
    requires s.firstKey.Some?
    ensures CommandOf(s).Some? && CommandOf(s).value.query == s.query
  {
  }

  lemma CutPayload(flags: nat, doc: Bytes, identifier: Bytes, documents: Bytes, checksum: Bytes)
    requires flags < U32_LIMIT
    ensures U32Bytes(flags) + [0] + doc <= SF.SequencePayload(flags, doc, identifier, documents, checksum)
  {
    hide U32Bytes, SF.SectionBytes;
    var p := U32Bytes(flags) + [0] + doc;
    assert SF.SequencePayload(flags, doc, identifier, documents, checksum)
        == p + ([1] + SF.SectionBytes(identifier, documents) + checksum);
  }

  /** A payload that ends with its body is read whole by the prefix decoder. */
  lemma CutBody(rt: Runtime, env: Envelope, flags: nat, doc: Bytes)
    requires flags < U32_LIMIT && Framed(doc) && Summarize(rt, doc, true).Ok?
    ensures DecodeOpMsgPrefix(rt, env, U32Bytes(flags) + [0] + doc) ==
            Ok(OpMsgMessage(env, flags, Summarize(rt, doc, true).value))
  {
    hide Summarize, SummarizePrefix, U32Bytes, U32At, OpMsgMessage;
    SF.PayloadParts(flags, doc, []);
    var p := U32Bytes(flags) + [0] + doc;
    assert p + [] == p;
    CompleteBody(rt, doc);
    assert p[5..] == doc;
  }

  lemma CompleteBody(rt: Runtime, doc: Bytes)
    requires Framed(doc)
    ensures SummarizePrefix(rt, doc) == Summarize(rt, doc, true)
  {
    hide Summarize;
    assert doc[..|doc|] == doc;
  }

  lemma SequenceMerged(rt: Runtime, body: Summary, identifier: Bytes, docs: seq<Bytes>)
    requires SF.Convertible(rt, docs)
    requires body.firstKey.Some? && CapturesQuery(Lower(body.firstKey.value)) && body.query.Some? && body.query.value.Object?
    ensures var m := Merged(body, SF.Sequenced(rt, body, identifier, docs));
            && m.firstKey == body.firstKey
            && m.query == Some(Object(body.query.value.fields[identifier := List(SF.Converted(rt, docs))]))
  {
    hide CapturesQuery, SF.DeletesOf, SF.Converted;
    SF.InsertOne(body.query.value.fields, identifier, SF.Converted(rt, docs));
  }
}
