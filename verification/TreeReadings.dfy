/** What the summary of an encoded document says, in terms of the values that were encoded:
    the number under `n` is the affected count, the one under `code` the error code, and
    so on, for every document of distinct keys. */
module TreeReadings {
  import opened Primitives
  import opened Bson
  import opened Elements
  import opened Summaries
  import opened Readings
  import opened BsonTree

  // ---------------------------------------------------------------- the readers on encoded values

  /** The flag, the 32-bit number and the count a value reads as. */
  function AsFlag(rt: Runtime, v: Value): Option<bool> {
    match v
    case VBool(b) => Some(b)
    case VInt32(n) => Some(n != 0)
    case VInt64(n) => Some(n != 0)
    case VDouble(raw) => Some(rt.doubleNonZero(raw))
    case _ => None
  }

  function AsCode(rt: Runtime, v: Value): Option<int> {
    match v
    case VInt32(n) => Some(n)
    case VInt64(n) => if -0x8000_0000 <= n < 0x8000_0000 then Some(n) else None
    case VDouble(raw) => rt.doubleToI32(raw)
    case _ => None
  }

  function AsCount(rt: Runtime, v: Value): Option<int> {
    match v
    case VInt32(n) => if n >= 0 then Some(n) else None
    case VInt64(n) => if n >= 0 then Some(n) else None
    case VDouble(raw) => rt.doubleToU64(raw)
    case _ => None
  }

  lemma NumbersRead(rt: Runtime, v: Value)
    requires Encodable(rt, v)
    ensures ReadBoolish(rt, Encode(v), 0, TypeOf(v)) == AsFlag(rt, v)
    ensures ReadI32ish(rt, Encode(v), 0, TypeOf(v)) == AsCode(rt, v)
    ensures ReadU64ish(rt, Encode(v), 0, TypeOf(v)) == AsCount(rt, v)
  {
    hide U32Bytes, U64Bytes, U32At, U64At, I32At, I64At, I64Bytes, StringBytes, LengthBytes;
    match v
    case VInt32(n) => Int32RoundTrip(n);
    case VInt64(n) => I64RoundTrip(n);
    case VDouble(raw) => assert raw[0..8] == raw;
    case _ =>
  }

  lemma TextReads(rt: Runtime, v: Value)
    requires Encodable(rt, v) && v.VString?
    ensures ReadString(rt, Encode(v), 0) == Ok(v.s)
  {
    hide ReadString, StringBytes;
    StringRoundTrip(rt, v.s, []);
    assert StringBytes(v.s) + [] == StringBytes(v.s);
  }

  // ---------------------------------------------------------------- the fields of a document

  ghost predicate DistinctKeys(fields: seq<Field>) {
    forall i, j :: 0 <= i < j < |fields| ==> fields[i].key != fields[j].key
  }

  ghost predicate Has(fields: seq<Field>, key: string, v: Value) {
    exists i :: 0 <= i < |fields| && fields[i] == Field(Ascii(key), v)
  }

  ghost predicate Lacks(fields: seq<Field>, key: string) {
    forall i :: 0 <= i < |fields| ==> fields[i].key != Ascii(key)
  }

  lemma {:induction false} ElementsOf(fields: seq<Field>, i: nat)
    requires i < |fields|
    ensures ToElements(fields)[i] == Element(fields[i].key, TypeOf(fields[i].value), Encode(fields[i].value))
  {
    if i == 0 {
    } else {
      ElementsOf(fields[1..], i - 1);
    }
  }

  lemma {:induction false} LastIs(es: seq<Element>, i: nat, key: string, ty: Option<byte>)
    requires i < |es| && es[i].key == Ascii(key) && (ty.None? || es[i].ty == ty.value)
    requires forall j :: 0 <= j < |es| && j != i ==> es[j].key != Ascii(key)
    ensures LastWith(es, key, ty) == Some(es[i])
    decreases |es|
  {
    if i == |es| - 1 {
    } else {
      LastIs(es[..|es| - 1], i, key, ty);
    }
  }

  lemma {:induction false} LastIsNone(es: seq<Element>, key: string, ty: Option<byte>)
    requires forall j :: 0 <= j < |es| && (ty.None? || es[j].ty == ty.value) ==> es[j].key != Ascii(key)
    ensures LastWith(es, key, ty).None?
    decreases |es|
  {
    if es == [] {
    } else {
      LastIsNone(es[..|es| - 1], key, ty);
    }
  }

  /** The one element under a key. */
  lemma FieldIs(rt: Runtime, fields: seq<Field>, key: string, v: Value)
    requires DistinctKeys(fields) && Has(fields, key, v)
    ensures LastWith(ToElements(fields), key, None) == Some(Element(Ascii(key), TypeOf(v), Encode(v)))
    ensures LastWith(ToElements(fields), key, Some(TypeOf(v))) == Some(Element(Ascii(key), TypeOf(v), Encode(v)))
    ensures forall ty: byte | ty != TypeOf(v) :: LastWith(ToElements(fields), key, Some(ty)).None?
  {
    hide Encode;
    var i :| 0 <= i < |fields| && fields[i] == Field(Ascii(key), v);
    var es := ToElements(fields);
    forall j | 0 <= j < |fields| ensures es[j] == Element(fields[j].key, TypeOf(fields[j].value), Encode(fields[j].value)) {
      ElementsOf(fields, j);
    }
    LastIs(es, i, key, None);
    LastIs(es, i, key, Some(TypeOf(v)));
    forall ty: byte | ty != TypeOf(v) ensures LastWith(es, key, Some(ty)).None? {
      LastIsNone(es, key, Some(ty));
    }
  }

  lemma FieldLacks(fields: seq<Field>, key: string, ty: Option<byte>)
    requires Lacks(fields, key)
    ensures LastWith(ToElements(fields), key, ty).None?
    ensures forall e | e in ToElements(fields) :: e.key != Ascii(key)
  {
    hide Encode;
    var es := ToElements(fields);
    forall j | 0 <= j < |fields| ensures es[j].key == fields[j].key {
      ElementsOf(fields, j);
    }
    LastIsNone(es, key, ty);
  }

  /** Without a nested exchange the gathered fields are plain ones. */
  lemma {:induction false} NoNested(rt: Runtime, es: seq<Element>)
    requires forall e | e in es :: e.key != Ascii("speculativeAuthenticate")
    ensures Mechanism(rt, es, true) == TextIn(rt, LastWith(es, "mechanism", Some(STRING)))
    ensures Done(rt, es, true) == FlagIn(rt, LastWith(es, "done", None))
    ensures !Speculative(rt, es, true)
    ensures (forall e | e in es :: e.key != Ascii("payload")) ==>
              User(rt, es, true) == TextIn(rt, LastWith(es, "user", Some(STRING)))
    decreases |es|
  {
    hide ReadString, ReadBoolish, PayloadUser;
    if es == [] {
    } else {
      NoNested(rt, es[..|es| - 1]);
      assert es[|es| - 1] in es;
    }
  }

  /** What the summary of a document says about each of its fields. */
  ghost predicate Says(rt: Runtime, fields: seq<Field>, s: Summary) {
    && (forall v | Has(fields, "n", v) :: s.affected == AsCount(rt, v)) && (Lacks(fields, "n") ==> s.affected.None?)
    && (forall v | Has(fields, "code", v) :: s.code == AsCode(rt, v)) && (Lacks(fields, "code") ==> s.code.None?)
    && (forall v | Has(fields, "ok", v) :: s.ok == AsFlag(rt, v)) && (Lacks(fields, "ok") ==> s.ok.None?)
    && SaysText(fields, "$db", s.database)
    && SaysText(fields, "collection", s.collection)
    && SaysText(fields, "codeName", s.codeName)
    && (Lacks(fields, "speculativeAuthenticate") ==>
          && SaysText(fields, "mechanism", s.mechanism)
          && (forall v | Has(fields, "done", v) :: s.authDone == AsFlag(rt, v)) && (Lacks(fields, "done") ==> s.authDone.None?)
          && !s.speculative
          && (Lacks(fields, "payload") ==> SaysText(fields, "user", s.principal)))
    && s.firstKey == (if fields == [] then None else Some(fields[0].key))
    && s.firstString == (if fields != [] && fields[0].value.VString? then Some(fields[0].value.s) else None)
  }

  /** A text field is the string under its key, and nothing where there is no string. */
  ghost predicate SaysText(fields: seq<Field>, key: string, read: Option<Bytes>) {
    && (forall v | Has(fields, key, v) :: read == if v.VString? then Some(v.s) else None)
    && (Lacks(fields, key) ==> read.None?)
  }

  lemma HasEncodable(rt: Runtime, fields: seq<Field>, key: string, v: Value)
    requires EncodableFields(rt, fields) && Has(fields, key, v)
    ensures Encodable(rt, v)
  {
    hide Encodable;
  }

  lemma TextSays(rt: Runtime, fields: seq<Field>, key: string)
    requires EncodableFields(rt, fields) && DistinctKeys(fields)
    ensures SaysText(fields, key, TextIn(rt, LastWith(ToElements(fields), key, Some(STRING))))
  {
    hide Encode, ReadString, LastWith, ToElements, EncodableFields, Encodable, DistinctKeys, Has, Lacks;
    var read := TextIn(rt, LastWith(ToElements(fields), key, Some(STRING)));
    forall v | Has(fields, key, v) ensures read == if v.VString? then Some(v.s) else None {
      FieldIs(rt, fields, key, v);
      HasEncodable(rt, fields, key, v);
      if v.VString? { TextReads(rt, v); } else { StringsOnly(v); }
    }
    if Lacks(fields, key) { FieldLacks(fields, key, Some(STRING)); }
  }

  lemma StringsOnly(v: Value)
    ensures TypeOf(v) == STRING <==> v.VString?
  {
  }

  lemma NumberSays(rt: Runtime, fields: seq<Field>, key: string)
    requires EncodableFields(rt, fields) && DistinctKeys(fields)
    ensures var e := LastWith(ToElements(fields), key, None);
            && (Lacks(fields, key) ==> e.None?)
            && (forall v | Has(fields, key, v) ::
                  && e.Some?
                  && ReadBoolish(rt, e.value.value, 0, e.value.ty) == AsFlag(rt, v)
                  && ReadI32ish(rt, e.value.value, 0, e.value.ty) == AsCode(rt, v)
                  && ReadU64ish(rt, e.value.value, 0, e.value.ty) == AsCount(rt, v))
  {
    hide Encode, ReadBoolish, ReadI32ish, ReadU64ish, LastWith, ToElements, EncodableFields, Encodable, DistinctKeys, Has,
      Lacks, AsFlag, AsCode, AsCount;
    forall v | Has(fields, key, v)
      ensures LastWith(ToElements(fields), key, None) == Some(Element(Ascii(key), TypeOf(v), Encode(v)))
      ensures ReadBoolish(rt, Encode(v), 0, TypeOf(v)) == AsFlag(rt, v)
      ensures ReadI32ish(rt, Encode(v), 0, TypeOf(v)) == AsCode(rt, v)
      ensures ReadU64ish(rt, Encode(v), 0, TypeOf(v)) == AsCount(rt, v)
    {
      FieldIs(rt, fields, key, v);
      HasEncodable(rt, fields, key, v);
      NumbersRead(rt, v);
    }
    if Lacks(fields, key) { FieldLacks(fields, key, None); }
  }

  lemma FirstSays(rt: Runtime, fields: seq<Field>)
    requires EncodableFields(rt, fields)
    ensures var es := ToElements(fields);
            && (es == [] <==> fields == [])
            && (fields != [] ==>
                  && es[0].key == fields[0].key
                  && (es[0].ty == STRING <==> fields[0].value.VString?)
                  && (fields[0].value.VString? ==> ReadString(rt, es[0].value, 0) == Ok(fields[0].value.s)))
  {
    hide Encode, ReadString, Encodable;
    if fields != [] {
      ElementsOf(fields, 0);
      StringsOnly(fields[0].value);
      if fields[0].value.VString? { TextReads(rt, fields[0].value); }
    }
  }

  /** The summary of every encoded document of distinct keys says what its fields say. */
  lemma DocumentSays(rt: Runtime, fields: seq<Field>)
    requires EncodableFields(rt, fields) && DistinctKeys(fields) && |Serialize(ToElements(fields))| < I32_LIMIT
    ensures Summarize(rt, Serialize(ToElements(fields)), true).Ok?
    ensures Says(rt, fields, Summarize(rt, Serialize(ToElements(fields)), true).value)
  {
    hide Summarize, Serialize, ToElements, LastWith, Mechanism, User, Done, Speculative, DeleteScan, ReadString, ReadBoolish,
      ReadI32ish, ReadU64ish, AsFlag, AsCode, AsCount, Has, EncodableFields, DistinctKeys, ValidElements, Image,
      SaysText, Lacks;
    var es := ToElements(fields);
    ElementsRoundTrip(rt, fields);
    SummaryReads(rt, es, true);
    FirstSays(rt, fields);
    NumberSays(rt, fields, "n");
    NumberSays(rt, fields, "code");
    NumberSays(rt, fields, "ok");
    NumberSays(rt, fields, "done");
    TextSays(rt, fields, "$db");
    TextSays(rt, fields, "collection");
    TextSays(rt, fields, "codeName");
    TextSays(rt, fields, "mechanism");
    TextSays(rt, fields, "user");
    if Lacks(fields, "speculativeAuthenticate") {
      FieldLacks(fields, "speculativeAuthenticate", None);
      NoNested(rt, es);
      if Lacks(fields, "payload") { FieldLacks(fields, "payload", None); }
    }
  }
}
