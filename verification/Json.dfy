/** BSON to JSON (`bson_container_to_json`, `bson_value_to_json`): the query content
    the monitor exports. Nested documents are converted by recursion on strictly
    shorter byte strings, so the conversion terminates on every input. */
module Json {
  import opened Primitives
  import opened Bson
  import opened Elements

  datatype Json =
    | Null
    | Bool(b: bool)
    | Int(n: int)
    | Double(raw: Bytes)
    | Text(s: Bytes)
    | List(items: seq<Json>)
    | Object(fields: map<Bytes, Json>)

  function Tagged(name: string, value: Json): Json {
    Object(map[Ascii(name) := value])
  }

  function HexDigit(n: nat): byte
    requires n < 16
  {
    if n < 10 then 0x30 + n else 0x57 + n
  }

  function EncodeHex(b: Bytes): (r: Bytes)
    ensures |r| == 2 * |b|
  {
    if b == [] then [] else [HexDigit(b[0] / 16), HexDigit(b[0] % 16)] + EncodeHex(b[1..])
  }

  /** The decimal text `to_string` gives an integer. */
  function Decimal(n: int): Bytes
    decreases n < 0, if n < 0 then -n else n
  {
    if n < 0 then [0x2d] + Decimal(-n)
    else if n < 10 then [0x30 + n]
    else Decimal(n / 10) + [0x30 + n % 10]
  }

  function DoubleJson(rt: Runtime, raw: Bytes): Json {
    if rt.doubleJsonIsNumber(raw) then Double(raw) else Tagged("$numberDouble", Text(rt.doubleText(raw)))
  }

  function BinaryJson(subtype: byte, data: Bytes): Json {
    Tagged("$binary", Object(map[Ascii("hex") := Text(EncodeHex(data)), Ascii("subType") := Text(EncodeHex([subtype]))]))
  }

  function RegexJson(pattern: Bytes, options: Bytes): Json {
    Tagged("$regularExpression", Object(map[Ascii("pattern") := Text(pattern), Ascii("options") := Text(options)]))
  }

  function PointerJson(namespace: Bytes, id: Bytes): Json {
    Tagged("$dbPointer", Object(map[Ascii("$ref") := Text(namespace), Ascii("$id") := Text(EncodeHex(id))]))
  }

  function TimestampJson(n: nat): Json {
    Tagged("$timestamp", Object(map[Ascii("t") := Int(n / U32_LIMIT), Ascii("i") := Int(n % U32_LIMIT)]))
  }

  function ContainerToJson(rt: Runtime, d: Bytes, asList: bool): Decoded<Json>
    decreases |d|, 1
  {
    if Framed(d) then ContainerLoop(rt, d, 4, map[], [], asList) else Err(InvalidBson)
  }

  function ContainerLoop(
    rt: Runtime, d: Bytes, offset: nat, fields: map<Bytes, Json>, values: seq<Json>, asList: bool
  ): Decoded<Json>
    requires |d| >= 1 && offset <= |d|
    decreases |d| - offset, 5
  {
    if offset >= |d| - 1 then Ok(if asList then List(values) else Object(fields))
    else
      var ty := d[offset];
      var (key, start) :- ReadCString(rt, d, offset + 1);
      var (value, next) :- ValueToJson(rt, d, start, ty);
      if next > |d| - 1 then Err(InvalidBson)
      else if asList then ContainerLoop(rt, d, next, fields, values + [value], asList)
      else ContainerLoop(rt, d, next, fields[key := value], values, asList)
  }

  function ValueToJson(rt: Runtime, b: Bytes, offset: nat, ty: byte): (r: Decoded<(Json, nat)>)
    ensures r.Ok? ==> SkipValue(rt, b, offset, ty) == Ok(r.value.1)
    ensures r.Err? && SkipValue(rt, b, offset, ty).Err? ==> r.error == SkipValue(rt, b, offset, ty).error
    decreases if offset <= |b| then |b| - offset else 0, 4
  {
    var end :- SkipValue(rt, b, offset, ty);
    var value :- ValueAt(rt, b, offset, end, ty);
    Ok((value, end))
  }

  /** The value that fills the bytes from `offset` to `end`. */
  function ValueAt(rt: Runtime, b: Bytes, offset: nat, end: nat, ty: byte): Decoded<Json>
    requires SkipValue(rt, b, offset, ty) == Ok(end)
    decreases |b| - offset, 2
  {
    var slice := b[offset..end];
    match ty {
      case 0x01 => Ok(DoubleJson(rt, slice))
      case 0x02 => var s :- ReadString(rt, b, offset); Ok(Text(s))
      case 0x03 => ContainerToJson(rt, slice, false)
      case 0x04 => ContainerToJson(rt, slice, true)
      case 0x05 => var data :- ReadBinary(b, offset); Ok(BinaryJson(b[offset + 4], data))
      case 0x06 => Ok(Tagged("$undefined", Bool(true)))
      case 0x07 => Ok(Tagged("$oid", Text(EncodeHex(slice))))
      case 0x08 => Ok(Bool(b[offset] != 0))
      case 0x09 => Ok(Tagged("$date", Tagged("$numberLong", Text(Decimal(I64At(b, offset))))))
      case 0x0a => Ok(Null)
      case 0x0b =>
        var (pattern, middle) :- ReadCString(rt, b, offset);
        var (options, _) :- ReadCString(rt, b, middle);
        Ok(RegexJson(pattern, options))
      case 0x0c =>
        var namespace :- ReadString(rt, b, offset);
        Ok(PointerJson(namespace, b[offset + 4 + I32At(b, offset)..end]))
      case 0x0d => var s :- ReadString(rt, b, offset); Ok(Tagged("$code", Text(s)))
      case 0x0e => var s :- ReadString(rt, b, offset); Ok(Tagged("$symbol", Text(s)))
      case 0x10 => Ok(Int(I32At(b, offset)))
      case 0x11 => Ok(TimestampJson(U64At(b, offset)))
      case 0x12 => Ok(Int(I64At(b, offset)))
      case 0x13 => Ok(Tagged("$numberDecimalBytes", Text(EncodeHex(slice))))
      case 0x7f => Ok(Tagged("$maxKey", Int(1)))
      case 0xff => Ok(Tagged("$minKey", Int(1)))
      case _ => Err(InvalidBson)
    }
  }

  /** `bson_document_sequence_to_json` */
  function SequenceToJson(rt: Runtime, documents: Bytes, offset: nat, acc: seq<Json>): Decoded<seq<Json>>
    requires offset <= |documents|
    decreases |documents| - offset
  {
    if offset == |documents| then Ok(acc)
    else
      var length :- ReadI32(documents, offset);
      if length < 5 || offset + length > |documents| then Err(InvalidBson)
      else
        var value :- ContainerToJson(rt, documents[offset..offset + length], false);
        SequenceToJson(rt, documents, offset + length, acc + [value])
  }

  // ---------------------------------------------------------------- the loops

  method EncodeHexLoop(b: Bytes) returns (encoded: Bytes)
    ensures encoded == EncodeHex(b)
  {
    encoded := [];
    for i := 0 to |b|
      invariant encoded + EncodeHex(b[i..]) == EncodeHex(b)
    {
      encoded := encoded + [HexDigit(b[i] / 16)];
      encoded := encoded + [HexDigit(b[i] % 16)];
      assert b[i..][1..] == b[i + 1..];
    }
  }

  method BsonContainerToJson(rt: Runtime, d: Bytes, asList: bool) returns (r: Decoded<Json>)
    ensures r == ContainerToJson(rt, d, asList)
  {
    if !Framed(d) { return Err(InvalidBson); }
    var fields: map<Bytes, Json> := map[];
    var values: seq<Json> := [];
    var offset := 4;
    while offset < |d| - 1
      invariant offset <= |d|
      invariant ContainerToJson(rt, d, asList) == ContainerLoop(rt, d, offset, fields, values, asList)
      decreases |d| - offset
    {
      hide SkipValue, ValueToJson;
      var ty := d[offset];
      offset := offset + 1;
      var read := ReadCString(rt, d, offset);
      if read.Err? { return Err(read.error); }
      var converted := ValueToJson(rt, d, read.value.1, ty);
      if converted.Err? { return Err(converted.error); }
      if converted.value.1 > |d| - 1 { return Err(InvalidBson); }
      if asList {
        values := values + [converted.value.0];
      } else {
        fields := fields[read.value.0 := converted.value.0];
      }
      offset := converted.value.1;
    }
    r := Ok(if asList then List(values) else Object(fields));
  }

  method BsonDocumentSequenceToJson(rt: Runtime, documents: Bytes) returns (r: Decoded<seq<Json>>)
    ensures r == SequenceToJson(rt, documents, 0, [])
  {
    var result: seq<Json> := [];
    var offset := 0;
    while offset < |documents|
      invariant offset <= |documents|
      invariant SequenceToJson(rt, documents, 0, []) == SequenceToJson(rt, documents, offset, result)
      decreases |documents| - offset
    {
      hide ContainerToJson;
      var length := ReadI32(documents, offset);
      if length.Err? { return Err(length.error); }
      if length.value < 5 { return Err(InvalidBson); }
      var end := offset + length.value;
      if end > |documents| { return Err(InvalidBson); }
      var value := ContainerToJson(rt, documents[offset..end], false);
      if value.Err? { return Err(value.error); }
      result := result + [value.value];
      offset := end;
    }
    r := Ok(result);
  }

  // ---------------------------------------------------------------- on element lists

  function ElementJson(rt: Runtime, e: Element): Decoded<Json> {
    var (value, _) :- ValueToJson(rt, e.value, 0, e.ty);
    Ok(value)
  }

  /** The conversion on the list of elements: the first value that does not convert
      decides the error, a repeated key keeps its last value. */
  function ElementsToJson(
    rt: Runtime, es: seq<Element>, fields: map<Bytes, Json>, values: seq<Json>, asList: bool
  ): Decoded<Json>
  {
    if es == [] then Ok(if asList then List(values) else Object(fields))
    else
      var value :- ElementJson(rt, es[0]);
      if asList then ElementsToJson(rt, es[1..], fields, values + [value], asList)
      else ElementsToJson(rt, es[1..], fields[es[0].key := value], values, asList)
  }

  /** Conversion looks at the value's bytes only. */
  lemma StringsJsonWindow(rt: Runtime, a: Bytes, i: nat, b: Bytes, j: nat, n: nat, ty: byte)
    requires SkipValue(rt, a, i, ty) == Ok(i + n) && SkipValue(rt, b, j, ty) == Ok(j + n)
    requires SameWindow(a, i, b, j, n)
    requires ty == 0x02 || ty == 0x0c || ty == 0x0d || ty == 0x0e
    ensures ValueAt(rt, a, i, i + n, ty) == ValueAt(rt, b, j, j + n, ty)
  {
    StringWindow(rt, a, i, b, j, n, ty);
    WindowI32(a, i, b, j, n);
    if ty == 0x0c {
      WindowPart(a, i, b, j, n, 4 + I32At(a, i), 12);
    }
  }

  lemma RegexJsonWindow(rt: Runtime, a: Bytes, i: nat, b: Bytes, j: nat, n: nat)
    requires SkipValue(rt, a, i, TYPE_REGEX) == Ok(i + n) && SkipValue(rt, b, j, TYPE_REGEX) == Ok(j + n)
    requires SameWindow(a, i, b, j, n)
    ensures ValueAt(rt, a, i, i + n, TYPE_REGEX) == ValueAt(rt, b, j, j + n, TYPE_REGEX)
  {
    hide ReadCString;
    var (_, mid) := ReadCString(rt, a, i).value;
    CStringWindow(rt, a, i, b, j, n);
    WindowPart(a, i, b, j, n, mid - i, n - (mid - i));
    CStringWindow(rt, a, mid, b, j + (mid - i), n - (mid - i));
  }

  lemma OthersJsonWindow(rt: Runtime, a: Bytes, i: nat, b: Bytes, j: nat, n: nat, ty: byte)
    requires SkipValue(rt, a, i, ty) == Ok(i + n) && SkipValue(rt, b, j, ty) == Ok(j + n)
    requires SameWindow(a, i, b, j, n)
    requires ty != 0x02 && ty != 0x0c && ty != 0x0d && ty != 0x0e && ty != TYPE_REGEX
    ensures ValueAt(rt, a, i, i + n, ty) == ValueAt(rt, b, j, j + n, ty)
  {
    hide ContainerToJson;
    match ty
    case 0x05 => BinaryWindow(rt, a, i, b, j, n); WindowAt(a, i, b, j, n, 4);
    case 0x08 => WindowAt(a, i, b, j, n, 0);
    case 0x09 | 0x11 | 0x12 => WindowI64(a, i, b, j, n);
    case 0x10 => WindowI32(a, i, b, j, n);
    case _ =>
  }

  lemma JsonWindow(rt: Runtime, a: Bytes, i: nat, b: Bytes, j: nat, n: nat, ty: byte)
    requires SkipValue(rt, a, i, ty) == Ok(i + n)
    requires SameWindow(a, i, b, j, n)
    ensures ValueToJson(rt, a, i, ty).Ok? ==>
              ValueToJson(rt, b, j, ty) == Ok((ValueToJson(rt, a, i, ty).value.0, j + n))
    ensures ValueToJson(rt, a, i, ty).Err? ==>
              ValueToJson(rt, b, j, ty) == Err(ValueToJson(rt, a, i, ty).error)
  {
    hide SkipValue, ValueAt;
    SkipWindow(rt, a, i, b, j, n, ty);
    if ty == 0x02 || ty == 0x0c || ty == 0x0d || ty == 0x0e {
      StringsJsonWindow(rt, a, i, b, j, n, ty);
    } else if ty == TYPE_REGEX {
      RegexJsonWindow(rt, a, i, b, j, n);
    } else {
      OthersJsonWindow(rt, a, i, b, j, n, ty);
    }
  }

  /** One round of the conversion loop, read off the element. */
  lemma ConvertStep(
    rt: Runtime, d: Bytes, offset: nat, e: Element, fields: map<Bytes, Json>, values: seq<Json>, asList: bool
  )
    requires ValidElement(rt, e) && offset + |ElementBytes(e)| <= |d| - 1
    requires d[offset..offset + |ElementBytes(e)|] == ElementBytes(e)
    ensures ElementJson(rt, e).Err? ==> ContainerLoop(rt, d, offset, fields, values, asList) == Err(ElementJson(rt, e).error)
    ensures ElementJson(rt, e).Ok? ==>
              var value := ElementJson(rt, e).value;
              var next := offset + |ElementBytes(e)|;
              ContainerLoop(rt, d, offset, fields, values, asList) ==
              if asList then ContainerLoop(rt, d, next, fields, values + [value], asList)
              else ContainerLoop(rt, d, next, fields[e.key := value], values, asList)
  {
    hide SkipValue, ReadCString, ValueToJson;
    ElementAt(rt, d, offset, e);
    JsonWindow(rt, e.value, 0, d, offset + 2 + |e.key|, |e.value|, e.ty);
  }

  lemma ConvertEnd(rt: Runtime, d: Bytes, offset: nat, fields: map<Bytes, Json>, values: seq<Json>, asList: bool)
    requires |d| >= 1 && |d| - 1 <= offset <= |d|
    ensures ContainerLoop(rt, d, offset, fields, values, asList) == ElementsToJson(rt, [], fields, values, asList)
  {
  }

  lemma ElementsStep(rt: Runtime, es: seq<Element>, fields: map<Bytes, Json>, values: seq<Json>, asList: bool)
    requires es != []
    ensures ElementJson(rt, es[0]).Err? ==> ElementsToJson(rt, es, fields, values, asList) == Err(ElementJson(rt, es[0]).error)
    ensures ElementJson(rt, es[0]).Ok? ==>
              var value := ElementJson(rt, es[0]).value;
              ElementsToJson(rt, es, fields, values, asList) ==
              if asList then ElementsToJson(rt, es[1..], fields, values + [value], asList)
              else ElementsToJson(rt, es[1..], fields[es[0].key := value], values, asList)
  {
    hide ElementJson;
  }

  lemma {:induction false} ConvertBody(
    rt: Runtime, pre: Bytes, es: seq<Element>, d: Bytes,
    fields: map<Bytes, Json>, values: seq<Json>, asList: bool
  )
    requires ValidElements(rt, es) && d == pre + Body(es) + [0]
    ensures ContainerLoop(rt, d, |pre|, fields, values, asList) == ElementsToJson(rt, es, fields, values, asList)
    decreases |es|
  {
    hide ContainerLoop, ElementsToJson, ElementBytes, SkipValue, ElementJson, ValidElement;
    if es == [] {
      ConvertEnd(rt, d, |pre|, fields, values, asList);
    } else {
      var e := es[0];
      ElementsStep(rt, es, fields, values, asList);
      Regroup(pre, ElementBytes(e), Body(es[1..]), [0]);
      ConvertStep(rt, d, |pre|, e, fields, values, asList);
      if ElementJson(rt, e).Ok? {
        var value := ElementJson(rt, e).value;
        if asList {
          ConvertBody(rt, pre + ElementBytes(e), es[1..], d, fields, values + [value], asList);
        } else {
          ConvertBody(rt, pre + ElementBytes(e), es[1..], d, fields[e.key := value], values, asList);
        }
      }
    }
  }

  /** Converting a document is converting its elements one after the other. */
  lemma ConvertSerialized(rt: Runtime, es: seq<Element>, asList: bool)
    requires ValidElements(rt, es) && |Serialize(es)| < I32_LIMIT
    ensures ContainerToJson(rt, Serialize(es), asList) == ElementsToJson(rt, es, map[], [], asList)
  {
    hide ContainerLoop, LengthBytes;
    SerializeFramed(es);
    ConvertBody(rt, LengthBytes(|Body(es)| + 5), es, Serialize(es), map[], [], asList);
  }

  /** Whatever converts also parses. */
  lemma {:induction false} ConvertedParses(
    rt: Runtime, d: Bytes, offset: nat, fields: map<Bytes, Json>, values: seq<Json>, asList: bool
  )
    requires |d| >= 1 && offset <= |d|
    requires ContainerLoop(rt, d, offset, fields, values, asList).Ok?
    ensures ParseFrom(rt, d, offset).Ok?
    decreases |d| - offset
  {
    hide SkipValue, ReadCString, ValueToJson;
    if offset < |d| - 1 {
      var (key, start) := ReadCString(rt, d, offset + 1).value;
      var (value, next) := ValueToJson(rt, d, start, d[offset]).value;
      if asList {
        ConvertedParses(rt, d, next, fields, values + [value], asList);
      } else {
        ConvertedParses(rt, d, next, fields[key := value], values, asList);
      }
    }
  }

  /** A framed document is one value of its own length. */
  lemma ContainerValue(rt: Runtime, d: Bytes, ty: byte)
    requires ty == 0x03 || ty == 0x04
    requires ContainerToJson(rt, d, ty == 0x04).Ok?
    ensures ValueToJson(rt, d, 0, ty) == Ok((ContainerToJson(rt, d, ty == 0x04).value, |d|))
  {
    hide ContainerLoop;
    assert d[0..|d|] == d;
  }
}
