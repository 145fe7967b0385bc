/** Abstract BSON values, their BSON 1.1 encoding, and the round trip through the
    monitor's JSON conversion. */
module BsonTree {
  import opened Primitives
  import opened Bson
  import opened Elements
  import opened Json

  /** All the types `bson_value_to_json` converts; a document and an array are both
      lists of keyed values, and an array's keys carry no meaning. */
  datatype Value =
    | VDouble(raw: Bytes)
    | VString(s: Bytes)
    | VDocument(fields: seq<Field>)
    | VArray(items: seq<Field>)
    | VBinary(subtype: byte, data: Bytes)
    | VUndefined
    | VObjectId(raw: Bytes)
    | VBool(b: bool)
    | VDate(millis: int)
    | VNull
    | VRegex(pattern: Bytes, options: Bytes)
    | VPointer(namespace: Bytes, id: Bytes)
    | VCode(s: Bytes)
    | VSymbol(s: Bytes)
    | VInt32(n: int)
    | VTimestamp(t: nat, i: nat)
    | VInt64(n: int)
    | VDecimal128(raw: Bytes)
    | VMaxKey
    | VMinKey

  datatype Field = Field(key: Bytes, value: Value)

  function TypeOf(v: Value): byte {
    match v
    case VDouble(_) => 0x01
    case VString(_) => 0x02
    case VDocument(_) => 0x03
    case VArray(_) => 0x04
    case VBinary(_, _) => 0x05
    case VUndefined => 0x06
    case VObjectId(_) => 0x07
    case VBool(_) => 0x08
    case VDate(_) => 0x09
    case VNull => 0x0a
    case VRegex(_, _) => 0x0b
    case VPointer(_, _) => 0x0c
    case VCode(_) => 0x0d
    case VSymbol(_) => 0x0e
    case VInt32(_) => 0x10
    case VTimestamp(_, _) => 0x11
    case VInt64(_) => 0x12
    case VDecimal128(_) => 0x13
    case VMaxKey => 0x7f
    case VMinKey => 0xff
  }

  function I64Bytes(n: int): (b: Bytes)
    ensures |b| == 8
  {
    U64Bytes(n % (U64_MAX + 1))
  }

  function StringBytes(s: Bytes): (b: Bytes)
    ensures |b| == |s| + 5
  {
    LengthBytes(|s| + 1) + s + [0]
  }

  function Encode(v: Value): Bytes {
    match v
    case VDouble(raw) => raw
    case VString(s) => StringBytes(s)
    case VDocument(fields) => Serialize(ToElements(fields))
    case VArray(items) => Serialize(ToElements(items))
    case VBinary(subtype, data) => LengthBytes(|data|) + [subtype] + data
    case VUndefined => []
    case VObjectId(raw) => raw
    case VBool(b) => [if b then 1 else 0]
    case VDate(millis) => I64Bytes(millis)
    case VNull => []
    case VRegex(pattern, options) => pattern + [0] + options + [0]
    case VPointer(namespace, id) => StringBytes(namespace) + id
    case VCode(s) => StringBytes(s)
    case VSymbol(s) => StringBytes(s)
    case VInt32(n) => U32Bytes(n % U32_LIMIT)
    case VTimestamp(t, i) => U32Bytes(i % U32_LIMIT) + U32Bytes(t % U32_LIMIT)
    case VInt64(n) => I64Bytes(n)
    case VDecimal128(raw) => raw
    case VMaxKey => []
    case VMinKey => []
  }

  function ToElements(fields: seq<Field>): (es: seq<Element>)
    ensures |es| == |fields|
  {
    if fields == [] then []
    else [Element(fields[0].key, TypeOf(fields[0].value), Encode(fields[0].value))] + ToElements(fields[1..])
  }

  const HEX_DIGITS: string := "0123456789abcdef"

  /** Two lower-case digits for each byte, the high one first, by position. */
  function HexText(b: Bytes): (r: Bytes)
    ensures |r| == 2 * |b|
  {
    seq(2 * |b|, i requires 0 <= i < 2 * |b| => HEX_DIGITS[if i % 2 == 0 then b[i / 2] / 16 else b[i / 2] % 16] as int % 256)
  }

  /** The hex text of the decoder, digit by digit. */
  lemma {:induction false} HexDigits(b: Bytes)
    ensures EncodeHex(b) == HexText(b)
  {
    if b == [] {
    } else {
      HexDigits(b[1..]);
      var r, t := EncodeHex(b), HexText(b[1..]);
      forall i | 0 <= i < 2 * |b| ensures r[i] == HexText(b)[i] {
        if i < 2 {
          DigitNames(b[0] / 16);
          DigitNames(b[0] % 16);
        } else {
          assert r[i] == t[i - 2] && b[1..][(i - 2) / 2] == b[i / 2];
        }
      }
    }
  }

  lemma DigitNames(n: nat)
    requires n < 16
    ensures HexDigit(n) == HEX_DIGITS[n] as int % 256
  {
  }

  /** The number a decimal text stands for. */
  function DecimalValue(text: Bytes): int {
    if text == [] then 0
    else if text[0] == 0x2d then -DigitsValue(text[1..])
    else DigitsValue(text)
  }

  function DigitsValue(text: Bytes): int {
    if text == [] then 0
    else
      var c: int := text[|text| - 1];
      10 * DigitsValue(text[..|text| - 1]) + c - 0x30
  }

  /** The decimal text of an integer stands for it, and has no leading zero. */
  lemma {:induction false} DecimalReads(n: nat)
    ensures Decimal(n) != [] && DigitsValue(Decimal(n)) == n
    ensures forall c | c in Decimal(n) :: 0x30 <= c <= 0x39
    ensures Decimal(n)[0] == 0x30 <==> n == 0
    decreases n
  {
    if n < 10 {
      assert Decimal(n)[..0] == [];
    } else {
      DecimalReads(n / 10);
      assert Decimal(n)[..|Decimal(n)| - 1] == Decimal(n / 10);
    }
  }

  lemma IntegerReads(n: int)
    ensures DecimalValue(Decimal(n)) == n
  {
    if n < 0 {
      DecimalReads(-n);
      assert Decimal(n)[1..] == Decimal(-n);
    } else {
      DecimalReads(n);
      assert Decimal(n)[0] in Decimal(n);
    }
  }

  /** The JSON a value stands for. */
  function Image(rt: Runtime, v: Value): Json {
    match v
    case VDouble(raw) =>
      if rt.doubleJsonIsNumber(raw) then Double(raw) else Object(map[Ascii("$numberDouble") := Text(rt.doubleText(raw))])
    case VString(s) => Text(s)
    case VDocument(fields) => Object(ImageFields(rt, fields))
    case VArray(items) => List(ImageItems(rt, items))
    case VBinary(subtype, data) =>
      Object(map[Ascii("$binary") := Object(map[
        Ascii("hex") := Text(HexText(data)), Ascii("subType") := Text(HexText([subtype]))])])
    case VUndefined => Tagged("$undefined", Bool(true))
    case VObjectId(raw) => Tagged("$oid", Text(HexText(raw)))
    case VBool(b) => Bool(b)
    case VDate(millis) => Tagged("$date", Tagged("$numberLong", Text(Decimal(millis))))
    case VNull => Null
    case VRegex(pattern, options) =>
      Object(map[Ascii("$regularExpression") := Object(map[
        Ascii("pattern") := Text(pattern), Ascii("options") := Text(options)])])
    case VPointer(namespace, id) =>
      Object(map[Ascii("$dbPointer") := Object(map[Ascii("$ref") := Text(namespace), Ascii("$id") := Text(HexText(id))])])
    case VCode(s) => Tagged("$code", Text(s))
    case VSymbol(s) => Tagged("$symbol", Text(s))
    case VInt32(n) => Int(n)
    case VTimestamp(t, i) =>
      Object(map[Ascii("$timestamp") := Object(map[Ascii("t") := Int(t), Ascii("i") := Int(i)])])
    case VInt64(n) => Int(n)
    case VDecimal128(raw) => Tagged("$numberDecimalBytes", Text(HexText(raw)))
    case VMaxKey => Tagged("$maxKey", Int(1))
    case VMinKey => Tagged("$minKey", Int(1))
  }

  /** A document's members, a later field of the same key winning. */
  function ImageFields(rt: Runtime, fields: seq<Field>): map<Bytes, Json> {
    if fields == [] then map[]
    else
      var last := fields[|fields| - 1];
      ImageFields(rt, fields[..|fields| - 1])[last.key := Image(rt, last.value)]
  }

  function ImageItems(rt: Runtime, items: seq<Field>): (js: seq<Json>)
    ensures |js| == |items|
    ensures forall i :: 0 <= i < |items| ==> js[i] == Image(rt, items[i].value)
  {
    if items == [] then [] else [Image(rt, items[0].value)] + ImageItems(rt, items[1..])
  }

  /** Values BSON 1.1 can encode. */
  ghost predicate Encodable(rt: Runtime, v: Value) {
    match v
    case VDouble(raw) => |raw| == 8
    case VString(s) => rt.utf8(s) && |s| + 1 < I32_LIMIT
    case VDocument(fields) => EncodableFields(rt, fields) && |Encode(v)| < I32_LIMIT
    case VArray(items) => EncodableFields(rt, items) && |Encode(v)| < I32_LIMIT
    case VBinary(_, data) => |data| < I32_LIMIT
    case VObjectId(raw) => |raw| == 12
    case VDate(millis) => -0x8000_0000_0000_0000 <= millis < 0x8000_0000_0000_0000
    case VRegex(pattern, options) =>
      0 !in pattern && 0 !in options && rt.utf8(pattern) && rt.utf8(options)
    case VPointer(namespace, id) => rt.utf8(namespace) && |namespace| + 1 < I32_LIMIT && |id| == 12
    case VCode(s) => rt.utf8(s) && |s| + 1 < I32_LIMIT
    case VSymbol(s) => rt.utf8(s) && |s| + 1 < I32_LIMIT
    case VInt32(n) => -I32_LIMIT <= n < I32_LIMIT
    case VTimestamp(t, i) => t < U32_LIMIT && i < U32_LIMIT
    case VInt64(n) => -0x8000_0000_0000_0000 <= n < 0x8000_0000_0000_0000
    case VDecimal128(raw) => |raw| == 16
    case _ => true
  }

  ghost predicate EncodableFields(rt: Runtime, fields: seq<Field>) {
    forall f | f in fields :: 0 !in f.key && rt.utf8(f.key) && Encodable(rt, f.value)
  }

  // ---------------------------------------------------------------- leaves

  lemma I64RoundTrip(n: int)
    requires -0x8000_0000_0000_0000 <= n < 0x8000_0000_0000_0000
    ensures I64At(I64Bytes(n), 0) == n
  {
    U64RoundTrip(n % (U64_MAX + 1));
  }

  lemma StringRoundTrip(rt: Runtime, s: Bytes, post: Bytes)
    requires rt.utf8(s) && |s| + 1 < I32_LIMIT
    ensures ReadI32(StringBytes(s) + post, 0) == Ok(|s| + 1)
    ensures ReadString(rt, StringBytes(s) + post, 0) == Ok(s)
  {
    hide LengthBytes;
    var b := StringBytes(s) + post;
    assert b[0..0 + 4] == LengthBytes(|s| + 1);
    LengthRoundTrip(b, 0, |s| + 1);
    assert b[4..4 + |s|] == s;
  }

  lemma RegexRoundTrip(rt: Runtime, pattern: Bytes, options: Bytes)
    requires 0 !in pattern && 0 !in options && rt.utf8(pattern) && rt.utf8(options)
    ensures var b := pattern + [0] + options + [0];
            ValueToJson(rt, b, 0, TYPE_REGEX) == Ok((RegexJson(pattern, options), |b|))
  {
    hide ReadCString, ValueToJson;
    var b := pattern + [0] + options + [0];
    TwoStrings(pattern, options);
    CStringAt(rt, b, 0, pattern);
    CStringAt(rt, b, |pattern| + 1, options);
    RegexValue(rt, b, pattern, |pattern| + 1, options);
  }

  lemma TwoStrings(x: Bytes, y: Bytes)
    ensures var b := x + [0] + y + [0];
            && b[0..0 + |x|] == x && b[0 + |x|] == 0
            && b[|x| + 1..|x| + 1 + |y|] == y && b[|x| + 1 + |y|] == 0
  {
  }

  lemma RegexValue(rt: Runtime, b: Bytes, pattern: Bytes, middle: nat, options: Bytes)
    requires ReadCString(rt, b, 0) == Ok((pattern, middle))
    requires ReadCString(rt, b, middle) == Ok((options, |b|))
    ensures ValueToJson(rt, b, 0, TYPE_REGEX) == Ok((RegexJson(pattern, options), |b|))
  {
  }

  /** The objects of the decoder are those of the image. */
  lemma ImageObjects(rt: Runtime, v: Value)
    ensures v.VDouble? ==> DoubleJson(rt, v.raw) == Image(rt, v)
    ensures v.VBinary? ==> BinaryJson(v.subtype, v.data) == Image(rt, v)
    ensures v.VRegex? ==> RegexJson(v.pattern, v.options) == Image(rt, v)
    ensures v.VPointer? ==> PointerJson(v.namespace, v.id) == Image(rt, v)
    ensures v.VObjectId? ==> Tagged("$oid", Text(EncodeHex(v.raw))) == Image(rt, v)
    ensures v.VDecimal128? ==> Tagged("$numberDecimalBytes", Text(EncodeHex(v.raw))) == Image(rt, v)
    ensures v.VTimestamp? && v.i < U32_LIMIT ==> TimestampJson(v.t * U32_LIMIT + v.i) == Image(rt, v)
  {
    hide EncodeHex, HexText;
    match v
    case VBinary(subtype, data) =>
      HexDigits(data);
      HexDigits([subtype]);
    case VPointer(_, id) => HexDigits(id);
    case VObjectId(raw) => HexDigits(raw);
    case VDecimal128(raw) => HexDigits(raw);
    case _ =>
  }

  lemma BinaryRoundTrip(rt: Runtime, subtype: byte, data: Bytes)
    requires |data| < I32_LIMIT
    ensures var b := LengthBytes(|data|) + [subtype] + data;
            ValueToJson(rt, b, 0, TYPE_BINARY) == Ok((BinaryJson(subtype, data), |b|))
  {
    hide LengthBytes;
    var b := LengthBytes(|data|) + [subtype] + data;
    assert b[0..0 + 4] == LengthBytes(|data|);
    LengthRoundTrip(b, 0, |data|);
    assert b[5..5 + |data|] == data;
  }

  lemma StringLikeRoundTrip(rt: Runtime, v: Value)
    requires Encodable(rt, v) && (v.VString? || v.VCode? || v.VSymbol? || v.VPointer?)
    ensures ValueToJson(rt, Encode(v), 0, TypeOf(v)) == Ok((Image(rt, v), |Encode(v)|))
  {
    hide ReadString, StringBytes, EncodeHex, HexText, PointerJson;
    ImageObjects(rt, v);
    if v.VPointer? {
      StringRoundTrip(rt, v.namespace, v.id);
      var b := Encode(v);
      assert b[0 + 4 + (|v.namespace| + 1)..|b|] == v.id;
    } else {
      StringRoundTrip(rt, v.s, []);
      assert StringBytes(v.s) + [] == StringBytes(v.s);
    }
  }

  lemma TimestampRoundTrip(t: nat, i: nat)
    requires t < U32_LIMIT && i < U32_LIMIT
    ensures U64At(U32Bytes(i % U32_LIMIT) + U32Bytes(t % U32_LIMIT), 0) == t * U32_LIMIT + i
  {
    hide U32Bytes, U32At;
    var b := U32Bytes(i) + U32Bytes(t);
    assert b[0..0 + 4] == U32Bytes(i);
    assert b[4..4 + 4] == U32Bytes(t);
    U32Anywhere(b, 0, i);
    U32Anywhere(b, 4, t);
  }

  lemma Int32RoundTrip(n: int)
    requires -I32_LIMIT <= n < I32_LIMIT
    ensures I32At(U32Bytes(n % U32_LIMIT), 0) == n
  {
    U32RoundTrip(n % U32_LIMIT);
  }

  lemma NumberRoundTrip(rt: Runtime, v: Value)
    requires Encodable(rt, v) && (v.VDate? || v.VInt64? || v.VInt32? || v.VTimestamp?)
    ensures ValueToJson(rt, Encode(v), 0, TypeOf(v)) == Ok((Image(rt, v), |Encode(v)|))
  {
    hide U32Bytes, U64Bytes, U32At, U64At, I32At, I64At, I64Bytes, TimestampJson, Decimal;
    ImageObjects(rt, v);
    match v
    case VDate(n) => I64RoundTrip(n);
    case VInt64(n) => I64RoundTrip(n);
    case VInt32(n) => Int32RoundTrip(n);
    case VTimestamp(t, i) => TimestampRoundTrip(t, i);
  }

  lemma RawRoundTrip(rt: Runtime, v: Value)
    requires Encodable(rt, v) && FixedWidth(TypeOf(v)).Some?
    requires !(v.VDate? || v.VInt64? || v.VInt32? || v.VTimestamp?)
    ensures ValueToJson(rt, Encode(v), 0, TypeOf(v)) == Ok((Image(rt, v), |Encode(v)|))
  {
    hide EncodeHex, HexText, ReadCString, DoubleJson;
    ImageObjects(rt, v);
    var b := Encode(v);
    assert b[0..|b|] == b;
  }

  // ---------------------------------------------------------------- trees

  /** Every abstract value decodes, from its encoding, to the JSON it stands for. */
  lemma {:induction false} ValueRoundTrip(rt: Runtime, v: Value)
    requires Encodable(rt, v)
    ensures ValueToJson(rt, Encode(v), 0, TypeOf(v)) == Ok((Image(rt, v), |Encode(v)|))
    decreases v, 1
  {
    hide ValueToJson, BinaryJson, RegexJson, HexText, EncodeHex;
    ImageObjects(rt, v);
    match v
    case VDocument(fields) => DocumentRoundTrip(rt, fields); ContainerValue(rt, Encode(v), 0x03);
    case VArray(items) => ArrayRoundTrip(rt, items); ContainerValue(rt, Encode(v), 0x04);
    case VRegex(pattern, options) => RegexRoundTrip(rt, pattern, options);
    case VBinary(subtype, data) => BinaryRoundTrip(rt, subtype, data);
    case VString(_) => StringLikeRoundTrip(rt, v);
    case VCode(_) => StringLikeRoundTrip(rt, v);
    case VSymbol(_) => StringLikeRoundTrip(rt, v);
    case VPointer(_, _) => StringLikeRoundTrip(rt, v);
    case VDate(_) => NumberRoundTrip(rt, v);
    case VInt64(_) => NumberRoundTrip(rt, v);
    case VInt32(_) => NumberRoundTrip(rt, v);
    case VTimestamp(_, _) => NumberRoundTrip(rt, v);
    case _ => RawRoundTrip(rt, v);
  }

  lemma {:induction false} ElementsRoundTrip(rt: Runtime, fields: seq<Field>)
    requires EncodableFields(rt, fields)
    ensures ValidElements(rt, ToElements(fields))
    ensures forall i :: 0 <= i < |fields| ==>
              && ToElements(fields)[i].key == fields[i].key
              && ElementJson(rt, ToElements(fields)[i]) == Ok(Image(rt, fields[i].value))
    decreases fields, 0
  {
    hide ValueToJson, Encode, Image, SkipValue;
    if fields == [] {
    } else {
      ValueRoundTrip(rt, fields[0].value);
      ElementsRoundTrip(rt, fields[1..]);
    }
  }

  lemma DocumentRoundTrip(rt: Runtime, fields: seq<Field>)
    requires EncodableFields(rt, fields) && |Serialize(ToElements(fields))| < I32_LIMIT
    ensures ContainerToJson(rt, Serialize(ToElements(fields)), false) == Ok(Object(ImageFields(rt, fields)))
    decreases fields, 1
  {
    hide ContainerToJson, Image, Encode;
    ElementsRoundTrip(rt, fields);
    ConvertSerialized(rt, ToElements(fields), false);
    FoldFields(rt, fields, 0);
    assert fields[..0] == [] && ToElements(fields)[0..] == ToElements(fields);
  }

  lemma ArrayRoundTrip(rt: Runtime, items: seq<Field>)
    requires EncodableFields(rt, items) && |Serialize(ToElements(items))| < I32_LIMIT
    ensures ContainerToJson(rt, Serialize(ToElements(items)), true) == Ok(List(ImageItems(rt, items)))
    decreases items, 1
  {
    hide ContainerToJson, Image, Encode;
    ElementsRoundTrip(rt, items);
    ConvertSerialized(rt, ToElements(items), true);
    FoldItems(rt, items, 0);
    assert ImageItems(rt, items)[..0] == [] && ToElements(items)[0..] == ToElements(items);
  }

  lemma {:induction false} FoldFields(rt: Runtime, fields: seq<Field>, k: nat)
    requires k <= |fields|
    requires forall i :: 0 <= i < |fields| ==>
              && ToElements(fields)[i].key == fields[i].key
              && ElementJson(rt, ToElements(fields)[i]) == Ok(Image(rt, fields[i].value))
    ensures ElementsToJson(rt, ToElements(fields)[k..], ImageFields(rt, fields[..k]), [], false) ==
            Ok(Object(ImageFields(rt, fields)))
    decreases |fields| - k
  {
    hide ElementJson, Image, Encode;
    var es := ToElements(fields);
    if k == |fields| {
      assert fields[..k] == fields;
    } else {
      FoldFields(rt, fields, k + 1);
      assert fields[..k + 1][..k] == fields[..k];
      assert es[k..][1..] == es[k + 1..] && es[k..][0] == es[k];
    }
  }

  lemma {:induction false} FoldItems(rt: Runtime, items: seq<Field>, k: nat)
    requires k <= |items|
    requires forall i :: 0 <= i < |items| ==>
              && ToElements(items)[i].key == items[i].key
              && ElementJson(rt, ToElements(items)[i]) == Ok(Image(rt, items[i].value))
    ensures ElementsToJson(rt, ToElements(items)[k..], map[], ImageItems(rt, items)[..k], true) ==
            Ok(List(ImageItems(rt, items)))
    decreases |items| - k
  {
    hide ElementJson, Image, Encode, ImageItems, ToElements;
    var es, js := ToElements(items), ImageItems(rt, items);
    if k == |items| {
      assert js[..k] == js && es[k..] == [];
    } else {
      FoldItems(rt, items, k + 1);
      assert js[..k] + [js[k]] == js[..k + 1];
      assert es[k..][1..] == es[k + 1..] && es[k..][0] == es[k];
    }
  }

  /** With distinct keys the exported object has exactly the document's fields. */
  lemma {:induction false} DistinctFields(rt: Runtime, fields: seq<Field>)
    requires forall i, j :: 0 <= i < j < |fields| ==> fields[i].key != fields[j].key
    ensures ImageFields(rt, fields).Keys == set f | f in fields :: f.key
    ensures forall f | f in fields :: ImageFields(rt, fields)[f.key] == Image(rt, f.value)
  {
    hide Image;
    if fields == [] {
    } else {
      var init, last := fields[..|fields| - 1], fields[|fields| - 1];
      DistinctFields(rt, init);
      assert fields == init + [last];
    }
  }
}
