/** Prefix decoding against full decoding for whole frames: OP_MSG, and the legacy OP_QUERY
    and OP_REPLY, whose decoders fill in one field from outside the document. */
module FramePrefixes {
  import opened Primitives
  import opened Bson
  import opened Elements
  import opened Json
  import opened Summaries
  import opened PrefixAgreement
  import opened PrefixFrames
  import opened Wire

  /** The document of `length` bytes at `offset`, and the part of it that a cut leaves. */
  lemma DocumentCut(payload: Bytes, j: nat, offset: nat, length: nat)
    requires offset <= j <= |payload| && offset + length <= |payload|
    ensures var d, tail := payload[offset..offset + length], payload[..j][offset..];
            tail <= d || d <= tail
  {
    var d, tail := payload[offset..offset + length], payload[..j][offset..];
    assert tail == payload[offset..j];
    if j <= offset + length { assert d[..|tail|] == tail; } else { assert tail[..|d|] == d; }
  }

  // ---------------------------------------------------------------- OP_REPLY

  /** The document of a reply, when it carries one. */
  ghost function ReplyBody(payload: Bytes): Option<Bytes> {
    if |payload| > 20 && I32At(payload, 16) > 0 && |payload| >= 24 && 0 <= I32At(payload, 20) <= |payload| - 20
    then Some(payload[20..20 + I32At(payload, 20)]) else None
  }

  /** The cut reply has an `ok` of its own to report. */
  ghost predicate ReportsOk(rt: Runtime, p: Bytes) {
    && |p| > 20 && I32At(p, 16) > 0
    && SummarizePrefix(rt, p[20..]).Ok? && SummarizePrefix(rt, p[20..]).value.ok.Some?
  }

  ghost predicate SameHead(cut: Message, whole: Message) {
    && cut.requestId == whole.requestId && cut.responseTo == whole.responseTo
    && cut.wireBytes == whole.wireBytes && cut.flags == whole.flags
    && cut.moreToCome == whole.moreToCome && cut.compressed == whole.compressed
    && (cut.command.Some? <==> whole.command.Some?) && (cut.status.Some? <==> whole.status.Some?)
  }

  /** A cut reply contradicts nothing but `ok`, and `ok` agrees exactly when the prefix
      reaches it or the flags say the same. */
  ghost predicate ReplyBelow(rt: Runtime, p: Bytes, payload: Bytes, cut: Message, whole: Message) {
    && cut.command.None? && cut.status.Some? && whole.status.Some?
    && var flagged := Some(whole.flags % 4 == 0);
       var body := ReplyBody(payload);
       if body.None? then cut == whole
       else
         && Parse(rt, body.value).Ok?
         && var es := Parse(rt, body.value).value;
            && StatusBelow(cut.status.value.(ok := None), whole.status.value, es)
            && (SingleWriter(es, true, OkSlot) ==>
                  (cut.status.value.ok == whole.status.value.ok
                   <==> ReportsOk(rt, p) || whole.status.value.ok == flagged))
  }

  lemma ReplyStatuses(cut: Summary, whole: Summary, es: seq<Element>, flags: nat)
    requires SummaryBelow(cut, whole, es)
    ensures var flagged := Some(flags % 4 == 0);
            var a, b := StatusOf(cut).(ok := OrElse(cut.ok, flagged)), StatusOf(whole).(ok := OrElse(whole.ok, flagged));
            && StatusBelow(a.(ok := None), b, es)
            && (SingleWriter(es, true, OkSlot) ==> (a.ok == b.ok <==> cut.ok.Some? || b.ok == flagged))
  {
    hide SummaryBelow, SingleWriter;
    StatusAgrees(cut, whole, es);
  }

  lemma ReplyParts(rt: Runtime, env: Envelope, payload: Bytes)
    requires DecodeOpReply(rt, env, payload).Ok? && I32At(payload, 16) > 0 && |payload| > 20
    ensures ReplyBody(payload).Some?
    ensures var d := ReplyBody(payload).value;
            && |d| >= 5 && |d| == I32At(payload, 20) <= |payload| - 20 && d == payload[20..20 + |d|]
            && Parse(rt, d).Ok? && Summarize(rt, d, true).Ok?
            && DecodeOpReply(rt, env, payload).value
               == OpReplyMessage(env, U32At(payload, 0), Some(Summarize(rt, d, true).value))
  {
    hide I32At, U32At, ParseFrom, Fold, WithQuery, OpReplyMessage;
  }

  lemma ReplyWords(payload: Bytes, j: nat)
    requires 20 <= j <= |payload|
    ensures U32At(payload[..j], 0) == U32At(payload, 0) && I32At(payload[..j], 16) == I32At(payload, 16)
  {
  }

  lemma ReplyPayload(rt: Runtime, env: Envelope, payload: Bytes, j: nat)
    requires j < |payload| && DecodeOpReply(rt, env, payload).Ok? && DecodeOpReplyPrefix(rt, env, payload[..j]).Ok?
    ensures var cut, whole := DecodeOpReplyPrefix(rt, env, payload[..j]).value, DecodeOpReply(rt, env, payload).value;
            SameHead(cut, whole) && ReplyBelow(rt, payload[..j], payload, cut, whole)
  {
    hide I32At, U32At, Summarize, SummarizePrefix, SingleWriter, SummaryBelow, StatusBelow, Parse;
    ReplyWords(payload, j);
    if I32At(payload, 16) > 0 {
      ReplyParts(rt, env, payload);
      var d := ReplyBody(payload).value;
      var es := Parse(rt, d).value;
      var whole := Summarize(rt, d, true).value;
      if j > 20 {
        var tail := payload[..j][20..];
        PrefixIsLong(rt, tail);
        DocumentCut(payload, j, 20, |d|);
        BodySummaries(rt, tail, d, es);
        ReplyStatuses(SummarizePrefix(rt, tail).value, whole, es, U32At(payload, 0));
      } else {
        NothingReported(whole, es);
        ReplyStatuses(EMPTY, whole, es, U32At(payload, 0));
      }
    }
  }

  lemma NothingReported(whole: Summary, es: seq<Element>)
    ensures SummaryBelow(EMPTY, whole, es)
  {
  }

  // ---------------------------------------------------------------- OP_QUERY

  ghost predicate HasNamespace(rt: Runtime, p: Bytes) {
    ReadCString(rt, p, 4).Ok? && ReadCString(rt, p, 4).value.1 + 8 <= |p|
  }

  ghost function NamespaceDatabase(rt: Runtime, p: Bytes): Option<Bytes>
    requires HasNamespace(rt, p)
  {
    SplitNamespace(ReadCString(rt, p, 4).value.0).0
  }

  ghost function QueryTail(rt: Runtime, p: Bytes): Bytes
    requires HasNamespace(rt, p)
  {
    p[ReadCString(rt, p, 4).value.1 + 8..]
  }

  ghost function QueryBody(rt: Runtime, payload: Bytes): Bytes
    requires HasNamespace(rt, payload)
  {
    var tail := QueryTail(rt, payload);
    if |tail| >= 4 && 0 <= I32At(tail, 0) <= |tail| then tail[..I32At(tail, 0)] else []
  }

  /** The cut query has a `$db` of its own to report. */
  ghost predicate NamesDatabase(rt: Runtime, p: Bytes)
    requires HasNamespace(rt, p)
  {
    SummarizePrefix(rt, QueryTail(rt, p)).Ok? && SummarizePrefix(rt, QueryTail(rt, p)).value.database.Some?
  }

  /** A cut query contradicts nothing but the database, and that agrees exactly when the
      prefix reaches the document's own or the namespace names the same. */
  ghost predicate QueryBelow(rt: Runtime, p: Bytes, payload: Bytes, cut: Message, whole: Message) {
    && HasNamespace(rt, p) && HasNamespace(rt, payload) && Parse(rt, QueryBody(rt, payload)).Ok?
    && cut.status.None?
    && (cut.command.Some? <==> whole.command.Some?)
    && var es := Parse(rt, QueryBody(rt, payload)).value;
       (cut.command.Some? ==>
          && CommandBelow(cut.command.value.(database := None), whole.command.value, es, true)
          && (SingleWriter(es, true, Database) ==>
                (cut.command.value.database == whole.command.value.database
                 <==> NamesDatabase(rt, p) || whole.command.value.database == NamespaceDatabase(rt, p))))
  }

  /** What the namespace and a summary make of a query. */
  lemma QueryCommands(env: Envelope, flags: nat, namespace: Bytes, cut: Summary, whole: Summary, es: seq<Element>)
    requires SingleWriter(es, true, Database) ==> Below(cut.database, whole.database)
    requires Below(cut.query, whole.query)
    requires cut.firstKey == whole.firstKey
    requires cut.firstKey.Some? ==> CommandBelow(CommandOf(cut).value, CommandOf(whole).value, es, true)
    ensures var a, b := OpQueryMessage(env, flags, namespace, cut), OpQueryMessage(env, flags, namespace, whole);
            var database := SplitNamespace(namespace).0;
            && SameHead(a, b)
            && (a.command.Some? ==>
                  && CommandBelow(a.command.value.(database := None), b.command.value, es, true)
                  && (SingleWriter(es, true, Database) ==>
                        (a.command.value.database == b.command.value.database
                         <==> (cut.database.Some? || b.command.value.database == database))))
  {
    hide SingleWriter, PrincipalSettled, HasPrincipalArgument, HasCollectionArgument;
  }

  lemma QueryParts(rt: Runtime, env: Envelope, payload: Bytes)
    requires DecodeOpQuery(rt, env, payload).Ok?
    ensures HasNamespace(rt, payload)
    ensures var offset, d := ReadCString(rt, payload, 4).value.1 + 8, QueryBody(rt, payload);
            && |d| >= 5 && offset + |d| <= |payload| && d == payload[offset..offset + |d|]
            && Parse(rt, d).Ok? && Summarize(rt, d, true).Ok?
            && DecodeOpQuery(rt, env, payload).value
               == OpQueryMessage(env, U32At(payload, 0), ReadCString(rt, payload, 4).value.0, Summarize(rt, d, true).value)
  {
    hide U32At, I32At, ParseFrom, Fold, WithQuery, OpQueryMessage, ReadCString;
    var offset := ReadCString(rt, payload, 4).value.1 + 8;
    LengthAt(payload, offset);
    var length := I32At(payload, offset);
    assert payload[offset..][..length] == payload[offset..offset + length];
  }

  lemma LengthAt(payload: Bytes, offset: nat)
    requires offset + 4 <= |payload|
    ensures I32At(payload[offset..], 0) == I32At(payload, offset)
  {
  }

  lemma QueryPayload(rt: Runtime, env: Envelope, payload: Bytes, j: nat)
    requires j < |payload| && DecodeOpQuery(rt, env, payload).Ok? && DecodeOpQueryPrefix(rt, env, payload[..j]).Ok?
    ensures var cut, whole := DecodeOpQueryPrefix(rt, env, payload[..j]).value, DecodeOpQuery(rt, env, payload).value;
            SameHead(cut, whole) && QueryBelow(rt, payload[..j], payload, cut, whole)
  {
    hide I32At, U32At, Summarize, SummarizePrefix, SingleWriter, SummaryBelow, CommandBelow, Parse, ReadCString,
      OpQueryMessage, CommandOf, DecodeOpQuery, QueryBody, SplitNamespace;
    QueryParts(rt, env, payload);
    var p := payload[..j];
    CStringPrefix(rt, p, payload, 4);
    FlagsOfPrefix(payload, j);
    var (namespace, after) := ReadCString(rt, p, 4).value;
    var d := QueryBody(rt, payload);
    var es := Parse(rt, d).value;
    var tail := p[after + 8..];
    PrefixIsLong(rt, tail);
    DocumentCut(payload, j, after + 8, |d|);
    BodySummaries(rt, tail, d, es);
    var cut, whole := SummarizePrefix(rt, tail).value, Summarize(rt, d, true).value;
    FieldsAgree(cut, whole, es);
    if cut.firstKey.Some? { BodyCommands(rt, cut, d, es); }
    QueryCommands(env, U32At(payload, 0), namespace, cut, whole, es);
    NoStatus(env, U32At(payload, 0), namespace, cut);
  }

  lemma NoStatus(env: Envelope, flags: nat, namespace: Bytes, s: Summary)
    ensures OpQueryMessage(env, flags, namespace, s).status.None?
  {
  }

  // ---------------------------------------------------------------- OP_MSG with document sequences

  /** The sections of a payload that decodes. */
  ghost function SectionsOf(rt: Runtime, payload: Bytes): Sections
    requires |payload| >= 9
  {
    var end := |payload| - ChecksumBytes(U32At(payload, 0));
    var r := SectionsFrom(rt, payload, end, 4, NO_SECTIONS);
    if r.Ok? then r.value else NO_SECTIONS
  }

  /** What a cut command says about query and deletes agrees with the whole command
      exactly when the document sequences add nothing else. */
  ghost predicate SequencesDecide(cut: Command, whole: Command, sections: Sections, es: seq<Element>) {
    && (cut.query.Some? && cut.query.value.Object? ==>
          (cut.query == whole.query
           <==> InsertAll(cut.query.value.fields, sections.sequences) == cut.query.value.fields))
    && (cut.deleteScope.Some? && SingleWriter(es, true, Scope) ==>
          (cut.deleteScope == whole.deleteScope
           <==> sections.deletes.None? || sections.deletes.value.0 == cut.deleteScope))
    && (cut.deleteStatements.Some? && SingleWriter(es, true, StatementCount) ==>
          (cut.deleteStatements == whole.deleteStatements
           <==> sections.deletes.None? || Some(sections.deletes.value.1) == cut.deleteStatements))
  }

  lemma MergedDecides(cut: Command, s: Summary, sections: Sections, es: seq<Element>)
    requires s.firstKey.Some? && CommandBelow(cut, CommandOf(s).value, es, true)
    requires cut.deleteScope.Some? || cut.deleteStatements.Some? ==> Lower(s.firstKey.value) == Ascii("delete")
    requires s.query.Some? ==> CapturesQuery(Lower(s.firstKey.value))
    ensures SequencesDecide(cut, CommandOf(Merged(s, sections)).value, sections, es)
  {
    hide SingleWriter, PrincipalSettled, HasPrincipalArgument, HasCollectionArgument, CapturesQuery, InsertAll;
  }

  lemma QueryCaptured(rt: Runtime, d: Bytes)
    requires Summarize(rt, d, true).Ok?
    ensures var s := Summarize(rt, d, true).value;
            s.query.Some? ==> s.firstKey.Some? && CapturesQuery(Lower(s.firstKey.value))
  {
    hide ParseFrom, Fold, CapturesQuery, ContainerToJson;
    if Parse(rt, d).Ok? {
      var es := Parse(rt, d).value;
      NoQueryYet(rt, es);
    }
  }

  lemma NoQueryYet(rt: Runtime, es: seq<Element>)
    ensures Fold(rt, EMPTY, true, es, true).query.None?
  {
    hide Fold, KindOf, KindWrites;
    forall i | 0 <= i < |es| ensures !Writes(es, true, i, Query) {
      NeverFirst(KindOf(es[i].key), es[i].ty);
    }
    FoldKeeps(rt, EMPTY, true, es, Query);
  }

  lemma OpMsgSequences(rt: Runtime, env: Envelope, payload: Bytes, j: nat)
    requires j < |payload| && DecodeOpMsg(rt, env, payload).Ok? && DecodeOpMsgPrefix(rt, env, payload[..j]).Ok?
    requires DecodeOpMsgPrefix(rt, env, payload[..j]).value.command.Some?
    ensures |payload| >= 9 && Parse(rt, FirstBody(payload)).Ok?
    ensures DecodeOpMsg(rt, env, payload).value.command.Some?
    ensures SequencesDecide(DecodeOpMsgPrefix(rt, env, payload[..j]).value.command.value,
                            DecodeOpMsg(rt, env, payload).value.command.value,
                            SectionsOf(rt, payload), Parse(rt, FirstBody(payload)).value)
  {
    hide SectionsFrom, SummarizePrefix, Fold, WithQuery, ParseFrom, I32At, Merged, CommandOf, SummaryBelow,
      CommandBelow, DecodeOpMsg, SequencesDecide, CapturesQuery;
    OpenedByBody(rt, env, payload);
    var d := FirstBody(payload);
    var es := Parse(rt, d).value;
    var tail := payload[..j][5..];
    var whole := Summarize(rt, d, true).value;
    PrefixIsLong(rt, tail);
    assert tail == payload[5..j];
    BodySummaries(rt, tail, d, es);
    var cut := SummarizePrefix(rt, tail).value;
    NamedCommand(cut);
    BodyCommands(rt, cut, d, es);
    QueryCaptured(rt, d);
    OnlyDeletes(cut);
    NamedCommand(Merged(whole, SectionsOf(rt, payload)));
    MergedStatus(whole, SectionsOf(rt, payload));
    MergedDecides(CommandOf(cut).value, whole, SectionsOf(rt, payload), es);
  }

  lemma OnlyDeletes(s: Summary)
    requires s.firstKey.Some?
    ensures var c := CommandOf(s).value;
            c.deleteScope.Some? || c.deleteStatements.Some? ==> Lower(s.firstKey.value) == Ascii("delete")
  {
  }

  // ---------------------------------------------------------------- all frames

  /** Prefix decoding under-approximates full decoding: on a frame that decodes, every
      shorter prefix that decodes at all gives the same ids, flags and length, the same
      command name if any, and each other field it reports is the field of the whole
      frame, provided the document has one writer for that field. Three cases are exact:
      the query and the delete fields of an OP_MSG agree when the document sequences add
      nothing else to them, and the `ok` of an OP_REPLY and the database of an OP_QUERY
      when the prefix reaches the document's own or the value filled in is the same. */
  lemma PrefixFrameAgrees(rt: Runtime, frame: Bytes, k: nat, maxMessage: nat)
    requires DecodeFrame(rt, frame, maxMessage).Ok?
    requires k < |frame| && DecodeFramePrefix(rt, frame[..k], maxMessage).Ok?
    ensures 16 <= k
    ensures var opcode, payload, p := I32At(frame, 12), frame[16..], frame[16..k];
            var cut, whole := DecodeFramePrefix(rt, frame[..k], maxMessage).value, DecodeFrame(rt, frame, maxMessage).value;
            && SameHead(cut, whole)
            && (opcode == OP_MSG || opcode == OP_QUERY || opcode == OP_REPLY)
            && (opcode == OP_MSG ==>
                  && |payload| >= 9 && Parse(rt, FirstBody(payload)).Ok?
                  && MessageBelow(cut, whole, Parse(rt, FirstBody(payload)).value,
                                  BodiesOnly(payload, |payload| - ChecksumBytes(U32At(payload, 0)), 4))
                  && (cut.command.Some? ==>
                        SequencesDecide(cut.command.value, whole.command.value, SectionsOf(rt, payload),
                                        Parse(rt, FirstBody(payload)).value)))
            && (opcode == OP_QUERY ==> QueryBelow(rt, p, payload, cut, whole))
            && (opcode == OP_REPLY ==> ReplyBelow(rt, p, payload, cut, whole))
  {
    hide I32At, U32At, DecodeOpMsg, DecodeOpMsgPrefix, BodiesOnly, CommandBelow, StatusBelow, Parse, DecodeOpQuery,
      DecodeOpQueryPrefix, DecodeOpReply, DecodeOpReplyPrefix, QueryBelow, ReplyBelow, SequencesDecide, SectionsOf, FirstBody;
    var payload := frame[16..];
    HeaderWords(frame, k);
    var env := Envelope(I32At(frame, 4), I32At(frame, 8), |frame|, false);
    assert frame[..k][16..] == payload[..k - 16] && frame[16..k] == payload[..k - 16];
    if I32At(frame, 12) == OP_MSG {
      PayloadAgrees(rt, env, payload, k - 16);
      if DecodeOpMsgPrefix(rt, env, payload[..k - 16]).value.command.Some? { OpMsgSequences(rt, env, payload, k - 16); }
    } else if I32At(frame, 12) == OP_QUERY {
      QueryPayload(rt, env, payload, k - 16);
    } else {
      ReplyPayload(rt, env, payload, k - 16);
    }
  }

  lemma HeaderWords(frame: Bytes, k: nat)
    requires 16 <= k <= |frame|
    ensures I32At(frame[..k], 0) == I32At(frame, 0) && I32At(frame[..k], 4) == I32At(frame, 4)
    ensures I32At(frame[..k], 8) == I32At(frame, 8) && I32At(frame[..k], 12) == I32At(frame, 12)
  {
  }
}
