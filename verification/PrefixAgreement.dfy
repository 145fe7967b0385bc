/** A summary taken from a cut-off document never contradicts the summary of the whole
    document: field by field, what the prefix reports is what the document says,
    provided no two elements of the document write that field. */
module PrefixAgreement {
  import opened Primitives
  import opened Bson
  import opened Elements
  import opened Deletes
  import opened Summaries

  /** The fields of a summary, by name. */
  datatype Slot =
    | FirstKey | FirstString | Database | Collection | OkSlot | Code | CodeName | Mechanism | Principal
    | Speculative | Scope | StatementCount | Affected | AuthDone | Query

  predicate Present(s: Summary, slot: Slot) {
    match slot
    case FirstKey => s.firstKey.Some?
    case FirstString => s.firstString.Some?
    case Database => s.database.Some?
    case Collection => s.collection.Some?
    case OkSlot => s.ok.Some?
    case Code => s.code.Some?
    case CodeName => s.codeName.Some?
    case Mechanism => s.mechanism.Some?
    case Principal => s.principal.Some?
    case Speculative => s.speculative
    case Scope => s.deleteScope.Some?
    case StatementCount => s.deleteStatements.Some?
    case Affected => s.affected.Some?
    case AuthDone => s.authDone.Some?
    case Query => s.query.Some?
  }

  predicate Same(s: Summary, t: Summary, slot: Slot) {
    match slot
    case FirstKey => s.firstKey == t.firstKey
    case FirstString => s.firstString == t.firstString
    case Database => s.database == t.database
    case Collection => s.collection == t.collection
    case OkSlot => s.ok == t.ok
    case Code => s.code == t.code
    case CodeName => s.codeName == t.codeName
    case Mechanism => s.mechanism == t.mechanism
    case Principal => s.principal == t.principal
    case Speculative => s.speculative == t.speculative
    case Scope => s.deleteScope == t.deleteScope
    case StatementCount => s.deleteStatements == t.deleteStatements
    case Affected => s.affected == t.affected
    case AuthDone => s.authDone == t.authDone
    case Query => s.query == t.query
  }

  function KeyWrites(key: Bytes, ty: byte): set<Slot> { KindWrites(KindOf(key), ty) }

  function KindWrites(kind: KeyKind, ty: byte): set<Slot> {
    match kind
    case DatabaseKey => if ty == TYPE_STRING then {Database} else {}
    case CollectionKey => if ty == TYPE_STRING then {Collection} else {}
    case OkKey => {OkSlot}
    case CodeKey => {Code}
    case CountKey => {Affected}
    case DoneKey => {AuthDone}
    case CodeNameKey => if ty == TYPE_STRING then {CodeName} else {}
    case MechanismKey => if ty == TYPE_STRING then {Mechanism} else {}
    case UserKey => if ty == TYPE_STRING then {Principal} else {}
    case PayloadKey => if ty == TYPE_BINARY then {Principal} else {}
    case SpeculativeKey => if ty == TYPE_DOCUMENT then {Speculative, Mechanism, Principal, AuthDone} else {}
    case DeletesKey => if ty == TYPE_ARRAY then {Scope, StatementCount} else {}
    case OtherKey => {}
  }

  /** The fields element `i` of a document may write. */
  predicate Writes(es: seq<Element>, first: bool, i: nat, slot: Slot)
    requires i < |es|
  {
    || slot in KeyWrites(es[i].key, es[i].ty)
    || (first && i == 0 && (slot == FirstKey || slot == FirstString))
  }

  ghost predicate SingleWriter(es: seq<Element>, first: bool, slot: Slot) {
    forall i, j :: 0 <= i < j < |es| ==> !(Writes(es, first, i, slot) && Writes(es, first, j, slot))
  }

  ghost predicate Unwritten(es: seq<Element>, first: bool, slot: Slot) {
    forall i :: 0 <= i < |es| ==> !Writes(es, first, i, slot)
  }

  // ---------------------------------------------------------------- frames

  lemma KindKeeps(
    rt: Runtime, s: Summary, kind: KeyKind, ty: byte, d: Bytes, start: nat, next: Option<nat>, slot: Slot
  )
    requires next.Some? ==> start <= next.value <= |d|
    requires slot !in KindWrites(kind, ty)
    ensures Same(s, AbsorbKind(rt, s, kind, ty, d, start, next, true), slot)
  {
    hide ReadString, ReadBoolish, ReadI32ish, ReadU64ish, ScramUser, Summarize, Statements;
    match kind
    case DatabaseKey =>
    case SpeculativeKey =>
    case DeletesKey =>
    case _ =>
  }

  lemma AbsorbKeeps(
    rt: Runtime, s: Summary, first: bool, key: Bytes, ty: byte, d: Bytes, start: nat, next: Option<nat>, slot: Slot
  )
    requires next.Some? ==> start <= next.value <= |d|
    requires slot !in KeyWrites(key, ty) && !(first && (slot == FirstKey || slot == FirstString))
    ensures Same(s, Absorb(rt, s, first, key, ty, d, start, next, true), slot)
  {
    hide KindOf, ReadString, AbsorbKind, KindWrites;
    KindKeeps(rt, if first then NameCommand(rt, s, key, ty, d, start) else s, KindOf(key), ty, d, start, next, slot);
  }

  lemma {:induction false} FoldKeeps(rt: Runtime, s: Summary, first: bool, es: seq<Element>, slot: Slot)
    requires Unwritten(es, first, slot)
    ensures Same(s, Fold(rt, s, first, es, true), slot)
    decreases |es|
  {
    hide Absorb, KeyWrites, KindOf;
    if es == [] {
    } else {
      var e := es[0];
      assert !Writes(es, first, 0, slot);
      AbsorbKeeps(rt, s, first, e.key, e.ty, e.value, 0, Some(|e.value|), slot);
      TailUnwritten(es, first, slot);
      FoldKeeps(rt, AbsorbElement(rt, s, first, e, true), false, es[1..], slot);
    }
  }

  lemma TailUnwritten(es: seq<Element>, first: bool, slot: Slot)
    requires es != [] && Unwritten(es, first, slot)
    ensures Unwritten(es[1..], false, slot)
  {
    hide KeyWrites;
    forall i | 0 <= i < |es| - 1 ensures !Writes(es[1..], false, i, slot) {
      assert !Writes(es, first, i + 1, slot);
    }
  }

  lemma TailSingle(es: seq<Element>, first: bool, slot: Slot)
    requires es != [] && SingleWriter(es, first, slot)
    ensures SingleWriter(es[1..], false, slot)
    ensures Writes(es, first, 0, slot) ==> Unwritten(es[1..], false, slot)
  {
    hide KeyWrites;
    forall i, j | 0 <= i < j < |es| - 1
      ensures !(Writes(es[1..], false, i, slot) && Writes(es[1..], false, j, slot))
    {
      assert !(Writes(es, first, i + 1, slot) && Writes(es, first, j + 1, slot));
    }
    if Writes(es, first, 0, slot) {
      forall i | 0 <= i < |es| - 1 ensures !Writes(es[1..], false, i, slot) {
        assert !(Writes(es, first, 0, slot) && Writes(es, first, i + 1, slot));
      }
    }
  }

  // ---------------------------------------------------------------- one element, cut off

  /** Reading a cut value into a field that was empty gives the true value or nothing. */
  lemma KindCut(
    rt: Runtime, c: Summary, w: Summary, kind: KeyKind, ty: byte, p: Bytes, d: Bytes, start: nat, next: nat, slot: Slot
  )
    requires p <= d && start <= next <= |d|
    requires Present(c, slot) ==> Same(c, w, slot) && slot !in KindWrites(kind, ty)
    ensures var cut := AbsorbKind(rt, c, kind, ty, p, start, None, true);
            var whole := AbsorbKind(rt, w, kind, ty, d, start, Some(next), true);
            Present(cut, slot) ==> Same(cut, whole, slot)
  {
    var whole := AbsorbKind(rt, w, kind, ty, d, start, Some(next), true);
    if slot in KindWrites(kind, ty) {
      KindCutWritten(rt, c, w, kind, ty, p, d, start, next, slot);
    } else {
      hide AbsorbKind, KindWrites;
      KindKeeps(rt, c, kind, ty, p, start, None, slot);
      KindKeeps(rt, w, kind, ty, d, start, Some(next), slot);
    }
  }

  lemma KindCutWritten(
    rt: Runtime, c: Summary, w: Summary, kind: KeyKind, ty: byte, p: Bytes, d: Bytes, start: nat, next: nat, slot: Slot
  )
    requires p <= d && start <= next <= |d|
    requires !Present(c, slot) && slot in KindWrites(kind, ty)
    ensures var cut := AbsorbKind(rt, c, kind, ty, p, start, None, true);
            var whole := AbsorbKind(rt, w, kind, ty, d, start, Some(next), true);
            Present(cut, slot) ==> Same(cut, whole, slot)
  {
    hide ReadString, ReadBinary, ReadBoolish, ReadI32ish, ReadU64ish, Summarize, Statements;
    StringsPrefix(rt, p, d, start);
    ScalarsPrefix(rt, p, d, start, ty);
    match kind
    case DatabaseKey =>
    case PayloadKey =>
    case SpeculativeKey =>
    case DeletesKey =>
    case _ =>
  }

  lemma AbsorbCut(
    rt: Runtime, s: Summary, first: bool, key: Bytes, ty: byte, p: Bytes, d: Bytes, start: nat, next: nat, slot: Slot
  )
    requires p <= d && start <= next <= |d|
    requires Present(s, slot) ==> slot !in KeyWrites(key, ty) && !(first && (slot == FirstKey || slot == FirstString))
    ensures var cut := Absorb(rt, s, first, key, ty, p, start, None, true);
            var whole := Absorb(rt, s, first, key, ty, d, start, Some(next), true);
            Present(cut, slot) ==> Same(cut, whole, slot)
  {
    hide KindOf, ReadString, AbsorbKind;
    StringsPrefix(rt, p, d, start);
    var c := if first then NameCommand(rt, s, key, ty, p, start) else s;
    var w := if first then NameCommand(rt, s, key, ty, d, start) else s;
    NeverFirst(KindOf(key), ty);
    KindCut(rt, c, w, KindOf(key), ty, p, d, start, next, slot);
  }

  lemma NeverFirst(kind: KeyKind, ty: byte)
    ensures FirstKey !in KindWrites(kind, ty) && FirstString !in KindWrites(kind, ty) && Query !in KindWrites(kind, ty)
  {
  }

  /** A value that is all there is read as in the whole document. */
  lemma AbsorbWhole(
    rt: Runtime, s: Summary, first: bool, key: Bytes, ty: byte, p: Bytes, d: Bytes, start: nat, next: nat
  )
    requires p <= d && SkipValue(rt, p, start, ty) == Ok(next)
    ensures SkipValue(rt, d, start, ty) == Ok(next)
    ensures Absorb(rt, s, first, key, ty, p, start, Some(next), true) ==
            Absorb(rt, s, first, key, ty, d, start, Some(next), true)
  {
    hide SkipValue, Absorb, AbsorbElement;
    SkipPrefix(rt, p, d, start, ty);
    AbsorbLocal(rt, s, first, key, ty, p, start, next, true);
    AbsorbLocal(rt, s, first, key, ty, d, start, next, true);
    assert p[start..next] == d[start..next];
  }

  // ---------------------------------------------------------------- the walk

  lemma {:induction false} PrefixBelow(
    rt: Runtime, p: Bytes, d: Bytes, offset: nat, s: Summary, first: bool, es: seq<Element>, slot: Slot
  )
    requires p <= d && |p| < |d| && ParseFrom(rt, d, offset) == Ok(es)
    requires SingleWriter(es, first, slot)
    requires Present(s, slot) ==> Unwritten(es, first, slot)
    ensures var cut := PrefixFrom(rt, p, |p|, offset, s, first);
            Present(cut, slot) ==> Same(cut, Fold(rt, s, first, es, true), slot)
    decreases |p| - offset
  {
    hide SkipValue, ReadCString, Absorb, KeyWrites, Present, Same, Unwritten, SingleWriter, KindOf;
    if offset >= |p| || ReadCString(rt, p, offset + 1).Err? {
      if Present(s, slot) { FoldKeeps(rt, s, first, es, slot); }
    } else {
      var (key, start) := ReadCString(rt, p, offset + 1).value;
      var ty := p[offset];
      CStringPrefix(rt, p, d, offset + 1);
      var next := SkipValue(rt, d, start, ty).value;
      var e := Element(key, ty, d[start..next]);
      assert es[0] == e && ParseFrom(rt, d, next) == Ok(es[1..]);
      AbsorbLocal(rt, s, first, key, ty, d, start, next, true);
      var whole := Absorb(rt, s, first, key, ty, d, start, Some(next), true);
      TailSingle(es, first, slot);
      if Present(s, slot) { HeadUnwritten(es, first, slot); TailUnwritten(es, first, slot); }
      if SkipValue(rt, p, start, ty).Ok? {
        AbsorbWhole(rt, s, first, key, ty, p, d, start, SkipValue(rt, p, start, ty).value);
        StillUnwritten(rt, s, first, e, es, d, p, start, Some(next), slot);
        if next > start {
          PrefixBelow(rt, p, d, next, whole, false, es[1..], slot);
        } else if Present(whole, slot) {
          FoldKeeps(rt, whole, false, es[1..], slot);
        }
      } else {
        var cut := Absorb(rt, s, first, key, ty, p, start, None, true);
        AbsorbCut(rt, s, first, key, ty, p, d, start, next, slot);
        StillUnwritten(rt, s, first, e, es, d, p, start, None, slot);
        if Present(cut, slot) {
          FoldKeeps(rt, whole, false, es[1..], slot);
          SameTransitive(cut, whole, Fold(rt, whole, false, es[1..], true), slot);
        }
      }
    }
  }

  lemma SameTransitive(a: Summary, b: Summary, c: Summary, slot: Slot)
    requires Same(a, b, slot) && Same(b, c, slot)
    ensures Same(a, c, slot)
  {
  }

  lemma HeadUnwritten(es: seq<Element>, first: bool, slot: Slot)
    requires es != [] && Unwritten(es, first, slot)
    ensures slot !in KeyWrites(es[0].key, es[0].ty) && !(first && (slot == FirstKey || slot == FirstString))
  {
    hide KeyWrites;
    assert !Writes(es, first, 0, slot);
  }

  /** After an element is absorbed, the fields then present have no writer left. */
  lemma StillUnwritten(
    rt: Runtime, s: Summary, first: bool, e: Element, es: seq<Element>, d: Bytes, p: Bytes, start: nat,
    next: Option<nat>, slot: Slot
  )
    requires es != [] && es[0] == e && SingleWriter(es, first, slot)
    requires Present(s, slot) ==> Unwritten(es, first, slot)
    requires next.Some? ==> start <= next.value <= |d|
    ensures var s' := Absorb(rt, s, first, e.key, e.ty, if next.Some? then d else p, start, next, true);
            Present(s', slot) ==> Unwritten(es[1..], false, slot)
  {
    hide Absorb, KeyWrites, KindOf;
    TailSingle(es, first, slot);
    if !Writes(es, first, 0, slot) {
      AbsorbKeeps(rt, s, first, e.key, e.ty, if next.Some? then d else p, start, next, slot);
      if Present(s, slot) { TailUnwritten(es, first, slot); }
    }
  }

  // ---------------------------------------------------------------- results

  /** The prefix summary under-approximates the summary of the document, one field at a
      time; only fields with two writers in the document are excepted. */
  lemma PrefixSummaryAgrees(rt: Runtime, d: Bytes, k: nat, es: seq<Element>, slot: Slot)
    requires k <= |d| && Parse(rt, d) == Ok(es)
    requires SummarizePrefix(rt, d[..k]).Ok?
    requires SingleWriter(es, true, slot)
    ensures Summarize(rt, d, true).Ok?
    ensures var cut := SummarizePrefix(rt, d[..k]).value;
            Present(cut, slot) ==> Same(cut, Summarize(rt, d, true).value, slot)
  {
    hide ParseFrom, PrefixFrom, Fold, WithQuery, I32At;
    var p := d[..k];
    HeaderOfPrefix(d, k);
    if k == |d| {
      assert p == d && d[..|d|] == d;
    } else {
      PrefixBelow(rt, p, d, 4, EMPTY, true, es, slot);
      var cut := PrefixFrom(rt, p, |p|, 4, EMPTY, true);
      var fold := Fold(rt, EMPTY, true, es, true);
      QueryOnly(rt, fold, d, slot);
      NoQuery(rt, p, |p|, 4, EMPTY, true);
      if Present(cut, slot) { SameTransitive(cut, fold, WithQuery(rt, fold, d), slot); }
    }
  }

  lemma HeaderOfPrefix(d: Bytes, k: nat)
    requires 4 <= k <= |d|
    ensures I32At(d[..k], 0) == I32At(d, 0)
  {
  }

  lemma QueryOnly(rt: Runtime, s: Summary, d: Bytes, slot: Slot)
    ensures slot != Query ==> Same(s, WithQuery(rt, s, d), slot)
  {
  }

  /** A cut-off document reports no query content. */
  lemma {:induction false} NoQuery(
    rt: Runtime, p: Bytes, availableEnd: nat, offset: nat, s: Summary, first: bool
  )
    requires availableEnd <= |p| && s.query.None?
    ensures PrefixFrom(rt, p, availableEnd, offset, s, first).query.None?
    decreases availableEnd - offset
  {
    hide SkipValue, ReadCString, Absorb, KindOf, KindWrites;
    if offset < availableEnd && ReadCString(rt, p, offset + 1).Ok? {
      var (key, start) := ReadCString(rt, p, offset + 1).value;
      var next := SkipValue(rt, p, start, p[offset]).ToOption();
      NeverFirst(KindOf(key), p[offset]);
      AbsorbKeeps(rt, s, first, key, p[offset], p, start, next, Query);
      if next.Some? && start < next.value <= availableEnd {
        NoQuery(rt, p, availableEnd, next.value,
                Absorb(rt, s, first, key, p[offset], p, start, next, true), false);
      }
    }
  }

  /** The two fields that name the command have one writer in every document. */
  lemma FirstIsSingle(es: seq<Element>, slot: Slot)
    requires slot == FirstKey || slot == FirstString
    ensures SingleWriter(es, true, slot)
  {
    hide KindOf, KindWrites;
    forall i, j | 0 <= i < j < |es| ensures !(Writes(es, true, i, slot) && Writes(es, true, j, slot)) {
      NeverFirst(KindOf(es[j].key), es[j].ty);
    }
  }
}
