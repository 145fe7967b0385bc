/** Prefix decoding under-approximates full decoding, for the payload of OP_MSG. */
module PrefixFrames {
  import opened Primitives
  import opened Bson
  import opened Elements
  import opened Deletes
  import opened Json
  import opened Summaries
  import opened PrefixAgreement
  import opened Wire

  // ---------------------------------------------------------------- the frame's body

  /** The sections from `offset` on are all kind-0 bodies. */
  ghost predicate BodiesOnly(payload: Bytes, end: nat, offset: nat)
    requires end <= |payload|
    decreases end - offset
  {
    offset < end ==>
      && payload[offset] == 0
      && offset + 5 <= |payload|
      && I32At(payload, offset + 1) >= 5
      && BodiesOnly(payload, end, offset + 1 + I32At(payload, offset + 1))
  }

  /** The document of the section that opens the payload. */
  ghost function FirstBody(payload: Bytes): Bytes
    requires |payload| >= 9
  {
    var length := I32At(payload, 5);
    if 0 <= length <= |payload| - 5 then payload[5..5 + length] else []
  }

  /** Once a body is summarised, later sections leave its summary alone. */
  lemma {:induction false} SummaryStays(rt: Runtime, payload: Bytes, end: nat, offset: nat, acc: Sections)
    requires end <= |payload| && acc.summary.Some? && SectionsFrom(rt, payload, end, offset, acc).Ok?
    ensures SectionsFrom(rt, payload, end, offset, acc).value.summary == acc.summary
    ensures BodiesOnly(payload, end, offset) ==> SectionsFrom(rt, payload, end, offset, acc).value == acc
    decreases end - offset
  {
    hide I32At, ReadCString, Summarize, SequenceFrom, SequenceToJson;
    if offset < end {
      if payload[offset] == 0 {
        var (acc', next) := BodySection(rt, payload, end, offset + 1, acc).value;
        SummaryStays(rt, payload, end, next, acc');
      } else {
        var (acc', next) := SequenceSection(rt, payload, end, offset + 1, acc).value;
        SummaryStays(rt, payload, end, next, acc');
      }
    }
  }

  /** What a decodable payload that opens with a body makes of that body. */
  lemma OpenedByBody(rt: Runtime, env: Envelope, payload: Bytes)
    requires |payload| >= 5 && payload[4] == 0 && DecodeOpMsg(rt, env, payload).Ok?
    ensures |payload| >= 9 && Summarize(rt, FirstBody(payload), true).Ok?
    ensures 5 <= |FirstBody(payload)| == I32At(payload, 5) <= |payload| - 5
    ensures var flags := U32At(payload, 0);
            var end := |payload| - ChecksumBytes(flags);
            && SectionsFrom(rt, payload, end, 4, NO_SECTIONS).Ok?
            && var sections := SectionsFrom(rt, payload, end, 4, NO_SECTIONS).value;
            && sections.summary == Some(Summarize(rt, FirstBody(payload), true).value)
            && (BodiesOnly(payload, end, 4) ==> sections.deletes.None? && sections.sequences == [])
            && DecodeOpMsg(rt, env, payload) == Ok(OpMsgMessage(env, flags, Merged(sections.summary.value, sections)))
  {
    hide I32At, Summarize, U32At, OpMsgMessage, Merged;
    var end := |payload| - ChecksumBytes(U32At(payload, 0));
    var (acc, next) := BodySection(rt, payload, end, 5, NO_SECTIONS).value;
    SummaryStays(rt, payload, end, next, acc);
  }

  // ---------------------------------------------------------------- agreement

  ghost predicate Below<T(!new)>(cut: Option<T>, whole: Option<T>) { cut.Some? ==> cut == whole }

  /** The user a command names comes from one place. */
  ghost predicate PrincipalSettled(es: seq<Element>) {
    && SingleWriter(es, true, Principal)
    && (es != [] && es[0].ty == TYPE_STRING && HasPrincipalArgument(Lower(es[0].key))
        ==> Unwritten(es, true, Principal))
  }

  /** Field by field, `cut` says nothing that `whole` does not say. */
  ghost predicate CommandBelow(cut: Command, whole: Command, es: seq<Element>, bodiesOnly: bool) {
    && cut.name == whole.name
    && (SingleWriter(es, true, Database) ==> Below(cut.database, whole.database))
    && (SingleWriter(es, true, Collection) ==> Below(cut.collection, whole.collection))
    && (SingleWriter(es, true, Mechanism) ==> Below(cut.mechanism, whole.mechanism))
    && (PrincipalSettled(es) ==> Below(cut.principal, whole.principal))
    && (SingleWriter(es, true, Speculative) ==> (cut.speculative ==> whole.speculative))
    && (bodiesOnly && SingleWriter(es, true, Scope) ==> Below(cut.deleteScope, whole.deleteScope))
    && (bodiesOnly && SingleWriter(es, true, StatementCount) ==> Below(cut.deleteStatements, whole.deleteStatements))
    && (bodiesOnly ==> Below(cut.query, whole.query))
  }

  ghost predicate StatusBelow(cut: Status, whole: Status, es: seq<Element>) {
    && (SingleWriter(es, true, OkSlot) ==> Below(cut.ok, whole.ok))
    && (SingleWriter(es, true, Code) ==> Below(cut.code, whole.code))
    && (SingleWriter(es, true, CodeName) ==> Below(cut.codeName, whole.codeName))
    && (SingleWriter(es, true, Affected) ==> Below(cut.affected, whole.affected))
    && (SingleWriter(es, true, AuthDone) ==> Below(cut.authDone, whole.authDone))
  }

  ghost predicate MessageBelow(cut: Message, whole: Message, es: seq<Element>, bodiesOnly: bool) {
    && cut.requestId == whole.requestId && cut.responseTo == whole.responseTo
    && cut.wireBytes == whole.wireBytes && cut.flags == whole.flags
    && cut.moreToCome == whole.moreToCome && cut.compressed == whole.compressed
    && (cut.command.Some? <==> whole.command.Some?)
    && (cut.command.Some? ==> CommandBelow(cut.command.value, whole.command.value, es, bodiesOnly))
    && (cut.status.Some? <==> whole.status.Some?)
    && (cut.status.Some? ==> StatusBelow(cut.status.value, whole.status.value, es))
  }

  /** Agreement of two summaries on every singly written field. */
  ghost predicate SummaryBelow(cut: Summary, whole: Summary, es: seq<Element>) {
    forall slot :: SingleWriter(es, true, slot) && Present(cut, slot) ==> Same(cut, whole, slot)
  }

  /** The first element's string is exact, unless the cut fell inside it and then nothing
      else was read. */
  ghost predicate FirstSettled(cut: Summary, whole: Summary) {
    cut.firstString == whole.firstString
    || (cut.firstString.None? && cut.collection.None? && cut.principal.None?)
  }

  // ---------------------------------------------------------------- the first element

  lemma AbsorbCutString(rt: Runtime, key: Bytes, p: Bytes, start: nat)
    requires ReadString(rt, p, start).Err?
    ensures var cut := Absorb(rt, EMPTY, true, key, TYPE_STRING, p, start, None, true);
            cut.firstString.None? && cut.collection.None? && cut.principal.None?
  {
    hide KindOf, ReadString, ReadBoolish, ReadI32ish, ReadU64ish;
  }

  lemma FirstNamed(
    rt: Runtime, s: Summary, key: Bytes, ty: byte, d: Bytes, start: nat, next: Option<nat>
  )
    requires next.Some? ==> start <= next.value <= |d|
    ensures Absorb(rt, s, true, key, ty, d, start, next, true).firstString == NameCommand(rt, s, key, ty, d, start).firstString
  {
    hide KindOf, AbsorbKind, KindWrites, ReadString;
    NeverFirst(KindOf(key), ty);
    KindKeeps(rt, NameCommand(rt, s, key, ty, d, start), KindOf(key), ty, d, start, next, FirstString);
  }

  lemma {:induction false} FirstStays(rt: Runtime, p: Bytes, offset: nat, s: Summary)
    ensures PrefixFrom(rt, p, |p|, offset, s, false).firstString == s.firstString
    decreases |p| - offset
  {
    hide SkipValue, ReadCString, Absorb, KindOf, KindWrites;
    if offset < |p| && ReadCString(rt, p, offset + 1).Ok? {
      var (key, start) := ReadCString(rt, p, offset + 1).value;
      var next := SkipValue(rt, p, start, p[offset]).ToOption();
      NeverFirst(KindOf(key), p[offset]);
      AbsorbKeeps(rt, s, false, key, p[offset], p, start, next, FirstString);
      if next.Some? && start < next.value {
        FirstStays(rt, p, next.value, Absorb(rt, s, false, key, p[offset], p, start, next, true));
      }
    }
  }

  lemma FirstCut(rt: Runtime, p: Bytes, d: Bytes, es: seq<Element>)
    requires p <= d && 4 <= |p| < |d| && ParseFrom(rt, d, 4) == Ok(es)
    ensures FirstSettled(PrefixFrom(rt, p, |p|, 4, EMPTY, true), Fold(rt, EMPTY, true, es, true))
  {
    hide SkipValue, ReadCString, Absorb, ReadString, KindOf, KeyWrites, Unwritten;
    if 4 < |p| && ReadCString(rt, p, 5).Ok? {
      var (key, start) := ReadCString(rt, p, 5).value;
      var ty := p[4];
      CStringPrefix(rt, p, d, 5);
      var next := SkipValue(rt, d, start, ty).value;
      AbsorbLocal(rt, EMPTY, true, key, ty, d, start, next, true);
      var whole := Absorb(rt, EMPTY, true, key, ty, d, start, Some(next), true);
      FirstUnwritten(es[1..]);
      FoldKeeps(rt, whole, false, es[1..], FirstString);
      FirstNamed(rt, EMPTY, key, ty, d, start, Some(next));
      var found := SkipValue(rt, p, start, ty).ToOption();
      FirstNamed(rt, EMPTY, key, ty, p, start, found);
      if found.Some? {
        AbsorbWhole(rt, EMPTY, true, key, ty, p, d, start, found.value);
        if found.value > start { FirstStays(rt, p, found.value, whole); }
      } else if ty == TYPE_STRING {
        if ReadString(rt, p, start).Ok? {
          StringsPrefix(rt, p, d, start);
        } else {
          AbsorbCutString(rt, key, p, start);
        }
      }
    }
  }

  lemma FirstUnwritten(es: seq<Element>)
    ensures Unwritten(es, false, FirstString)
  {
    hide KindOf, KindWrites;
    forall i | 0 <= i < |es| ensures !Writes(es, false, i, FirstString) {
      NeverFirst(KindOf(es[i].key), es[i].ty);
    }
  }

  lemma FoldUnwritten(rt: Runtime, d: Bytes, es: seq<Element>, slot: Slot)
    requires Parse(rt, d) == Ok(es) && Unwritten(es, true, slot) && slot != Query
    ensures Same(EMPTY, Summarize(rt, d, true).value, slot)
  {
    hide ParseFrom, Fold, WithQuery, Unwritten;
    FoldKeeps(rt, EMPTY, true, es, slot);
    QueryOnly(rt, Fold(rt, EMPTY, true, es, true), d, slot);
    SameTransitive(EMPTY, Fold(rt, EMPTY, true, es, true), WithQuery(rt, Fold(rt, EMPTY, true, es, true), d), slot);
  }

  /** The prefix of the body's bytes, whether or not it reaches past the body. */
  lemma BodySummaries(rt: Runtime, tail: Bytes, d: Bytes, es: seq<Element>)
    requires 5 <= |tail| && Parse(rt, d) == Ok(es) && (tail <= d || d <= tail)
    requires SummarizePrefix(rt, tail).Ok?
    ensures Summarize(rt, d, true).Ok?
    ensures SummaryBelow(SummarizePrefix(rt, tail).value, Summarize(rt, d, true).value, es)
    ensures FirstSettled(SummarizePrefix(rt, tail).value, Summarize(rt, d, true).value)
    ensures SummarizePrefix(rt, tail).value.firstKey.None? ==> SummarizePrefix(rt, tail) == Summarize(rt, d, true)
  {
    hide PrefixFrom, Fold, WithQuery, I32At, SingleWriter, Present, Same, ParseFrom;
    if d <= tail {
      HeaderOfPrefix(tail, |d|);
      assert tail[..|d|] == d;
      SameReflexive(Summarize(rt, d, true).value);
    } else {
      assert d[..|tail|] == tail;
      HeaderOfPrefix(d, |tail|);
      forall slot | SingleWriter(es, true, slot) && Present(SummarizePrefix(rt, tail).value, slot)
        ensures Same(SummarizePrefix(rt, tail).value, Summarize(rt, d, true).value, slot)
      {
        PrefixSummaryAgrees(rt, d, |tail|, es, slot);
      }
      FirstCut(rt, tail, d, es);
      QueryKeepsFirst(rt, Fold(rt, EMPTY, true, es, true), d);
    }
  }

  lemma SameReflexive(s: Summary)
    ensures forall slot :: Same(s, s, slot)
  {
  }

  lemma QueryKeepsFirst(rt: Runtime, s: Summary, d: Bytes)
    ensures WithQuery(rt, s, d).firstString == s.firstString
  {
  }

  // ---------------------------------------------------------------- commands and statuses

  lemma StatusAgrees(cut: Summary, whole: Summary, es: seq<Element>)
    requires SummaryBelow(cut, whole, es)
    ensures StatusBelow(StatusOf(cut), StatusOf(whole), es)
  {
    hide SingleWriter;
    assert SingleWriter(es, true, OkSlot) && Present(cut, OkSlot) ==> Same(cut, whole, OkSlot);
    assert SingleWriter(es, true, Code) && Present(cut, Code) ==> Same(cut, whole, Code);
    assert SingleWriter(es, true, CodeName) && Present(cut, CodeName) ==> Same(cut, whole, CodeName);
    assert SingleWriter(es, true, Affected) && Present(cut, Affected) ==> Same(cut, whole, Affected);
    assert SingleWriter(es, true, AuthDone) && Present(cut, AuthDone) ==> Same(cut, whole, AuthDone);
  }

  lemma PrincipalAgrees(rt: Runtime, cut: Summary, d: Bytes, es: seq<Element>)
    requires Parse(rt, d) == Ok(es) && Summarize(rt, d, true).Ok?
    requires SummaryBelow(cut, Summarize(rt, d, true).value, es) && FirstSettled(cut, Summarize(rt, d, true).value)
    requires cut.firstKey.Some? && cut.firstKey == Summarize(rt, d, true).value.firstKey
    requires PrincipalSettled(es) && (es == [] || es[0].ty != TYPE_STRING ==> cut.firstString.None?)
    requires es != [] ==> cut.firstKey == Some(es[0].key)
    ensures Below(CommandOf(cut).value.principal, CommandOf(Summarize(rt, d, true).value).value.principal)
  {
    hide SingleWriter, Unwritten, Summarize, HasPrincipalArgument, HasCollectionArgument;
    var whole := Summarize(rt, d, true).value;
    assert SingleWriter(es, true, Principal) && Present(cut, Principal) ==> Same(cut, whole, Principal);
    if cut.principal.None? && cut.firstString.Some? && HasPrincipalArgument(Lower(cut.firstKey.value)) {
      FoldUnwritten(rt, d, es, Principal);
      assert Same(EMPTY, whole, Principal);
    }
  }

  /** `SummaryBelow`, spelled out for the fields a command is made of. */
  ghost predicate FieldsBelow(cut: Summary, whole: Summary, es: seq<Element>) {
    && (SingleWriter(es, true, Database) ==> Below(cut.database, whole.database))
    && (SingleWriter(es, true, Collection) ==> Below(cut.collection, whole.collection))
    && (SingleWriter(es, true, Mechanism) ==> Below(cut.mechanism, whole.mechanism))
    && (SingleWriter(es, true, Speculative) ==> (cut.speculative ==> whole.speculative))
    && (SingleWriter(es, true, Scope) ==> Below(cut.deleteScope, whole.deleteScope))
    && (SingleWriter(es, true, StatementCount) ==> Below(cut.deleteStatements, whole.deleteStatements))
    && Below(cut.query, whole.query)
  }

  lemma FieldsAgree(cut: Summary, whole: Summary, es: seq<Element>)
    requires SummaryBelow(cut, whole, es)
    ensures FieldsBelow(cut, whole, es)
  {
    hide SingleWriter;
    assert SingleWriter(es, true, Database) && Present(cut, Database) ==> Same(cut, whole, Database);
    assert SingleWriter(es, true, Collection) && Present(cut, Collection) ==> Same(cut, whole, Collection);
    assert SingleWriter(es, true, Mechanism) && Present(cut, Mechanism) ==> Same(cut, whole, Mechanism);
    assert SingleWriter(es, true, Speculative) && Present(cut, Speculative) ==> Same(cut, whole, Speculative);
    assert SingleWriter(es, true, Scope) && Present(cut, Scope) ==> Same(cut, whole, Scope);
    assert SingleWriter(es, true, StatementCount) && Present(cut, StatementCount) ==> Same(cut, whole, StatementCount);
    QueryIsSingle(es);
    assert SingleWriter(es, true, Query) && Present(cut, Query) ==> Same(cut, whole, Query);
  }

  lemma CommandAgrees(cut: Summary, whole: Summary, es: seq<Element>)
    requires FieldsBelow(cut, whole, es) && FirstSettled(cut, whole)
    requires cut.firstKey.Some? && cut.firstKey == whole.firstKey
    requires PrincipalSettled(es) ==> Below(CommandOf(cut).value.principal, CommandOf(whole).value.principal)
    ensures CommandBelow(CommandOf(cut).value, CommandOf(whole).value, es, true)
  {
    hide SingleWriter, HasPrincipalArgument, HasCollectionArgument, PrincipalSettled;
  }

  lemma QueryIsSingle(es: seq<Element>)
    ensures SingleWriter(es, true, Query)
  {
    hide KindOf, KindWrites;
    forall i, j | 0 <= i < j < |es| ensures !(Writes(es, true, i, Query) && Writes(es, true, j, Query)) {
      NeverFirst(KindOf(es[j].key), es[j].ty);
    }
  }

  /** The document sequences only touch the delete fields and the query. */
  lemma MergedAgrees(cut: Command, s: Summary, sections: Sections, es: seq<Element>, bodiesOnly: bool)
    requires s.firstKey.Some? && CommandBelow(cut, CommandOf(s).value, es, true)
    requires bodiesOnly ==> sections.deletes.None? && sections.sequences == []
    ensures CommandBelow(cut, CommandOf(Merged(s, sections)).value, es, bodiesOnly)
  {
    hide SingleWriter, PrincipalSettled, HasPrincipalArgument, HasCollectionArgument, CapturesQuery;
  }

  /** Who names the command in a whole document. */
  lemma WholeFirst(rt: Runtime, d: Bytes, es: seq<Element>)
    requires Parse(rt, d) == Ok(es)
    ensures var whole := Summarize(rt, d, true).value;
            && (es == [] ==> whole.firstKey.None? && whole.firstString.None?)
            && (es != [] ==> whole.firstKey == Some(es[0].key))
            && (es != [] && es[0].ty != TYPE_STRING ==> whole.firstString.None?)
  {
    hide ParseFrom, Absorb, KindWrites, KindOf, ContainerToJson, CapturesQuery;
    if es != [] {
      var e := es[0];
      var s := AbsorbElement(rt, EMPTY, true, e, true);
      NameKept(rt, e);
      FirstUnwritten(es[1..]);
      forall i | 0 <= i < |es| - 1 ensures !Writes(es[1..], false, i, FirstKey) {
        NeverFirst(KindOf(es[1..][i].key), es[1..][i].ty);
      }
      FoldKeeps(rt, s, false, es[1..], FirstKey);
      FoldKeeps(rt, s, false, es[1..], FirstString);
    }
  }

  lemma NameKept(rt: Runtime, e: Element)
    ensures var s := AbsorbElement(rt, EMPTY, true, e, true);
            s.firstKey == Some(e.key) && (e.ty != TYPE_STRING ==> s.firstString.None?)
  {
    hide AbsorbKind, KindWrites, KindOf, ReadString;
    var n := NameCommand(rt, EMPTY, e.key, e.ty, e.value, 0);
    NeverFirst(KindOf(e.key), e.ty);
    KindKeeps(rt, n, KindOf(e.key), e.ty, e.value, 0, Some(|e.value|), FirstKey);
    KindKeeps(rt, n, KindOf(e.key), e.ty, e.value, 0, Some(|e.value|), FirstString);
  }

  /** Whatever the prefix of the body reports as the command agrees with the body's. */
  lemma BodyCommands(rt: Runtime, cut: Summary, d: Bytes, es: seq<Element>)
    requires Parse(rt, d) == Ok(es) && Summarize(rt, d, true).Ok?
    requires SummaryBelow(cut, Summarize(rt, d, true).value, es) && FirstSettled(cut, Summarize(rt, d, true).value)
    requires cut.firstKey.Some?
    ensures Summarize(rt, d, true).value.firstKey == cut.firstKey
    ensures CommandBelow(CommandOf(cut).value, CommandOf(Summarize(rt, d, true).value).value, es, true)
  {
    hide Summarize, SingleWriter, CommandOf, PrincipalSettled;
    var whole := Summarize(rt, d, true).value;
    WholeFirst(rt, d, es);
    FirstIsSingle(es, FirstKey);
    FirstIsSingle(es, FirstString);
    assert SingleWriter(es, true, FirstKey) && Present(cut, FirstKey) ==> Same(cut, whole, FirstKey);
    assert SingleWriter(es, true, FirstString) && Present(cut, FirstString) ==> Same(cut, whole, FirstString);
    FieldsAgree(cut, whole, es);
    if PrincipalSettled(es) { PrincipalAgrees(rt, cut, d, es); }
    CommandAgrees(cut, whole, es);
  }

  /** The payload of an OP_MSG frame and a strict prefix of it. */
  lemma PayloadAgrees(rt: Runtime, env: Envelope, payload: Bytes, j: nat)
    requires j < |payload| && DecodeOpMsg(rt, env, payload).Ok? && DecodeOpMsgPrefix(rt, env, payload[..j]).Ok?
    ensures |payload| >= 9 && Parse(rt, FirstBody(payload)).Ok?
    ensures MessageBelow(DecodeOpMsgPrefix(rt, env, payload[..j]).value, DecodeOpMsg(rt, env, payload).value,
                         Parse(rt, FirstBody(payload)).value,
                         BodiesOnly(payload, |payload| - ChecksumBytes(U32At(payload, 0)), 4))
  {
    hide SectionsFrom, SummarizePrefix, Fold, WithQuery, ParseFrom, I32At, Merged, CommandOf, BodiesOnly, SummaryBelow,
      CommandBelow, StatusBelow, DecodeOpMsg;
    OpenedByBody(rt, env, payload);
    var d := FirstBody(payload);
    var es := Parse(rt, d).value;
    var tail := payload[..j][5..];
    var end := |payload| - ChecksumBytes(U32At(payload, 0));
    var sections := SectionsFrom(rt, payload, end, 4, NO_SECTIONS).value;
    var whole := Summarize(rt, d, true).value;
    PrefixIsLong(rt, tail);
    assert tail == payload[5..j];
    BodySummaries(rt, tail, d, es);
    var cut := SummarizePrefix(rt, tail).value;
    StatusAgrees(cut, whole, es);
    MergedStatus(whole, sections);
    NamedCommand(cut);
    NamedCommand(whole);
    NamedCommand(Merged(whole, sections));
    if cut.firstKey.Some? {
      BodyCommands(rt, cut, d, es);
      MergedAgrees(CommandOf(cut).value, whole, sections, es, BodiesOnly(payload, end, 4));
    }
    FlagsOfPrefix(payload, j);
  }

  lemma FlagsOfPrefix(payload: Bytes, j: nat)
    requires 4 <= j <= |payload|
    ensures U32At(payload[..j], 0) == U32At(payload, 0)
  {
  }

  lemma NamedCommand(s: Summary)
    ensures CommandOf(s).Some? <==> s.firstKey.Some?
  {
  }

  lemma PrefixIsLong(rt: Runtime, tail: Bytes)
    requires SummarizePrefix(rt, tail).Ok?
    ensures 5 <= |tail|
  {
  }

  lemma MergedStatus(s: Summary, sections: Sections)
    ensures StatusOf(Merged(s, sections)) == StatusOf(s) && Merged(s, sections).firstKey == s.firstKey
  {
  }
}
