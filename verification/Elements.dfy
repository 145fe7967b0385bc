/** A BSON document as the list of its elements.

    Every decoder loop walks the same way: type byte, key, `skip_value`. `Parse` is
    that walk on its own, `Serialize` is its inverse, and the two together say what
    the byte strings accepted by `summarize_bson_inner` are: exactly the serialised
    lists of valid elements. */
module Elements {
  import opened Primitives
  import opened Bson

  datatype Element = Element(key: Bytes, ty: byte, value: Bytes)

  ghost predicate ValidElement(rt: Runtime, e: Element) {
    0 !in e.key && rt.utf8(e.key) && SkipValue(rt, e.value, 0, e.ty) == Ok(|e.value|)
  }

  ghost predicate ValidElements(rt: Runtime, es: seq<Element>) {
    forall e | e in es :: ValidElement(rt, e)
  }

  function ElementBytes(e: Element): (b: Bytes)
    ensures |b| == 2 + |e.key| + |e.value|
  {
    [e.ty] + e.key + [0] + e.value
  }

  function Body(es: seq<Element>): Bytes {
    if es == [] then [] else ElementBytes(es[0]) + Body(es[1..])
  }

  /** Elements between a length header and a terminator. */
  function Serialize(es: seq<Element>): (d: Bytes)
    ensures |d| == |Body(es)| + 5
  {
    LengthBytes(|Body(es)| + 5) + Body(es) + [0]
  }

  /** The check that opens every document walk. */
  predicate Framed(d: Bytes) {
    |d| >= 5 && I32At(d, 0) == |d| && d[|d| - 1] == 0
  }

  function Parse(rt: Runtime, d: Bytes): Decoded<seq<Element>> {
    if Framed(d) then ParseFrom(rt, d, 4) else Err(InvalidBson)
  }

  function ParseFrom(rt: Runtime, d: Bytes, offset: nat): (r: Decoded<seq<Element>>)
    requires |d| >= 1
    decreases |d| - offset
  {
    if offset >= |d| - 1 then Ok([])
    else
      var ty := d[offset];
      var (key, start) :- ReadCString(rt, d, offset + 1);
      var next :- SkipValue(rt, d, start, ty);
      if next > |d| - 1 then Err(InvalidBson)
      else
        var rest :- ParseFrom(rt, d, next);
        Ok([Element(key, ty, d[start..next])] + rest)
  }

  // ---------------------------------------------------------------- one element

  lemma SliceWindow(d: Bytes, offset: nat, v: Bytes)
    requires offset + |v| <= |d| && d[offset..offset + |v|] == v
    ensures SameWindow(v, 0, d, offset, |v|) && SameWindow(d, offset, v, 0, |v|)
  {
    assert v[0..0 + |v|] == v;
  }

  lemma ElementParts(d: Bytes, offset: nat, e: Element)
    requires offset + |ElementBytes(e)| <= |d|
    requires d[offset..offset + |ElementBytes(e)|] == ElementBytes(e)
    ensures d[offset] == e.ty
    ensures d[offset + 1..offset + 1 + |e.key|] == e.key
    ensures d[offset + 1 + |e.key|] == 0
    ensures d[offset + 2 + |e.key|..offset + 2 + |e.key| + |e.value|] == e.value
  {
    var b := ElementBytes(e);
    var n, k := |b|, |e.key|;
    SliceWindow(d, offset, b);
    WindowAt(b, 0, d, offset, n, 0);
    WindowAt(b, 0, d, offset, n, 1 + k);
    WindowPart(b, 0, d, offset, n, 1, k);
    WindowPart(b, 0, d, offset, n, 2 + k, |e.value|);
    assert b[1..1 + k] == e.key;
    assert b[2 + k..2 + k + |e.value|] == e.value;
  }

  /** Reading an element off its own bytes, anywhere in a buffer. */
  lemma ElementAt(rt: Runtime, d: Bytes, offset: nat, e: Element)
    requires ValidElement(rt, e)
    requires offset + |ElementBytes(e)| <= |d|
    requires d[offset..offset + |ElementBytes(e)|] == ElementBytes(e)
    ensures d[offset] == e.ty
    ensures ReadCString(rt, d, offset + 1) == Ok((e.key, offset + 2 + |e.key|))
    ensures SkipValue(rt, d, offset + 2 + |e.key|, e.ty) == Ok(offset + |ElementBytes(e)|)
    ensures SameWindow(e.value, 0, d, offset + 2 + |e.key|, |e.value|)
    ensures d[offset + 2 + |e.key|..offset + |ElementBytes(e)|] == e.value
  {
    hide SkipValue, ReadCString;
    ElementParts(d, offset, e);
    CStringAt(rt, d, offset + 1, e.key);
    var start := offset + 2 + |e.key|;
    SliceWindow(d, start, e.value);
    SkipWindow(rt, e.value, 0, d, start, |e.value|, e.ty);
  }

  /** What `ParseFrom` cuts out is a valid element. */
  lemma CutElement(rt: Runtime, d: Bytes, offset: nat, key: Bytes, start: nat, next: nat)
    requires offset < |d|
    requires ReadCString(rt, d, offset + 1) == Ok((key, start))
    requires SkipValue(rt, d, start, d[offset]) == Ok(next)
    ensures var e := Element(key, d[offset], d[start..next]);
            && ValidElement(rt, e)
            && offset + |ElementBytes(e)| == next
            && d[offset..next] == ElementBytes(e)
            && SameWindow(d, start, e.value, 0, |e.value|)
  {
    hide SkipValue, ReadCString;
    var v := d[start..next];
    SliceWindow(d, start, v);
    SkipWindow(rt, d, start, v, 0, next - start, d[offset]);
    assert d[offset..next] == [d[offset]] + d[offset + 1..start - 1] + [d[start - 1]] + v;
  }

  // ---------------------------------------------------------------- inverse functions

  lemma {:induction false} BodySplit(xs: seq<Element>, ys: seq<Element>)
    ensures Body(xs + ys) == Body(xs) + Body(ys)
  {
    hide ElementBytes;
    if xs == [] {
      assert xs + ys == ys;
    } else {
      BodySplit(xs[1..], ys);
      assert (xs + ys)[1..] == xs[1..] + ys;
    }
  }

  lemma Regroup(a: Bytes, b: Bytes, c: Bytes, z: Bytes)
    ensures a + (b + c) + z == (a + b) + c + z
    ensures (a + (b + c) + z)[|a|..|a| + |b|] == b
  {
  }

  /** One round of the walk. */
  lemma ParseStep(rt: Runtime, d: Bytes, offset: nat, e: Element, rest: seq<Element>)
    requires ValidElement(rt, e)
    requires offset + |ElementBytes(e)| <= |d| - 1
    requires d[offset..offset + |ElementBytes(e)|] == ElementBytes(e)
    requires ParseFrom(rt, d, offset + |ElementBytes(e)|) == Ok(rest)
    ensures ParseFrom(rt, d, offset) == Ok([e] + rest)
  {
    hide SkipValue, ReadCString;
    ElementAt(rt, d, offset, e);
  }

  lemma {:induction false} ParseBody(rt: Runtime, pre: Bytes, es: seq<Element>, d: Bytes)
    requires ValidElements(rt, es) && d == pre + Body(es) + [0]
    ensures ParseFrom(rt, d, |pre|) == Ok(es)
    decreases |es|
  {
    if es == [] {
    } else {
      hide ParseFrom, ElementBytes, SkipValue;
      var e := es[0];
      var pre' := pre + ElementBytes(e);
      Regroup(pre, ElementBytes(e), Body(es[1..]), [0]);
      ParseBody(rt, pre', es[1..], d);
      ParseStep(rt, d, |pre|, e, es[1..]);
      assert [e] + es[1..] == es;
    }
  }

  lemma SerializeFramed(es: seq<Element>)
    requires |Serialize(es)| < I32_LIMIT
    ensures Framed(Serialize(es))
  {
    var d := Serialize(es);
    assert d[0..0 + 4] == LengthBytes(|d|);
    LengthRoundTrip(d, 0, |d|);
  }

  /** Parsing undoes serialisation. */
  lemma ParseSerialize(rt: Runtime, es: seq<Element>)
    requires ValidElements(rt, es) && |Serialize(es)| < I32_LIMIT
    ensures Parse(rt, Serialize(es)) == Ok(es)
  {
    hide ParseFrom, LengthBytes;
    SerializeFramed(es);
    ParseBody(rt, LengthBytes(|Body(es)| + 5), es, Serialize(es));
  }

  lemma {:induction false} ParseFromInverse(rt: Runtime, d: Bytes, offset: nat)
    requires |d| >= 1 && offset <= |d| - 1 && ParseFrom(rt, d, offset).Ok?
    ensures var es := ParseFrom(rt, d, offset).value;
            ValidElements(rt, es) && d[offset..|d| - 1] == Body(es)
    decreases |d| - offset
  {
    hide SkipValue, ReadCString, ParseFrom, ElementBytes, ValidElement;
    if offset < |d| - 1 {
      var key, start, next := ParseHead(rt, d, offset);
      CutElement(rt, d, offset, key, start, next);
      ParseFromInverse(rt, d, next);
      assert d[offset..|d| - 1] == d[offset..next] + d[next..|d| - 1];
      BodyOne(Element(key, d[offset], d[start..next]), ParseFrom(rt, d, next).value);
    } else {
      ParseEnd(rt, d, offset);
    }
  }

  /** The walk's first element and the rest of the walk. */
  lemma ParseHead(rt: Runtime, d: Bytes, offset: nat) returns (key: Bytes, start: nat, next: nat)
    requires |d| >= 1 && offset < |d| - 1 && ParseFrom(rt, d, offset).Ok?
    ensures ReadCString(rt, d, offset + 1) == Ok((key, start)) && SkipValue(rt, d, start, d[offset]) == Ok(next)
    ensures offset < start <= next <= |d| - 1 && ParseFrom(rt, d, next).Ok?
    ensures ParseFrom(rt, d, offset).value == [Element(key, d[offset], d[start..next])] + ParseFrom(rt, d, next).value
  {
    hide SkipValue, ReadCString;
    key, start := ReadCString(rt, d, offset + 1).value.0, ReadCString(rt, d, offset + 1).value.1;
    next := SkipValue(rt, d, start, d[offset]).value;
  }

  lemma ParseEnd(rt: Runtime, d: Bytes, offset: nat)
    requires |d| >= 1 && offset >= |d| - 1
    ensures ParseFrom(rt, d, offset) == Ok([])
  {
  }

  lemma BodyOne(e: Element, rest: seq<Element>)
    ensures Body([e] + rest) == ElementBytes(e) + Body(rest)
  {
    assert ([e] + rest)[1..] == rest;
  }

  lemma {:induction false} HeaderUnique(d: Bytes)
    requires |d| >= 4 && 0 <= I32At(d, 0)
    ensures d[..4] == LengthBytes(I32At(d, 0))
  {
    var b0: int, b1: int, b2: int, b3: int := d[0], d[1], d[2], d[3];
    BytesOf(b0, b1, b2, b3);
    hide U32Bytes;
    assert d[..4] == [b0, b1, b2, b3];
  }

  lemma BytesOf(b0: byte, b1: byte, b2: byte, b3: byte)
    ensures var n: nat := b0 + 0x100 * b1 + 0x1_0000 * b2 + 0x100_0000 * b3;
            n < U32_LIMIT && U32Bytes(n) == [b0, b1, b2, b3]
  {
    var m2: int := b2 + 0x100 * b3;
    var m1: int := b1 + 0x100 * m2;
    var n: int := b0 + 0x100 * m1;
    assert n / 0x100 == m1 && n % 0x100 == b0;
    assert n / 0x1_0000 == m2 && m1 % 0x100 == b1;
    assert n / 0x100_0000 == b3 && m2 % 0x100 == b2;
  }

  /** Serialisation undoes parsing: whatever parses is the serialised form of a list
      of valid elements. */
  lemma SerializeParse(rt: Runtime, d: Bytes)
    requires Parse(rt, d).Ok?
    ensures var es := Parse(rt, d).value;
            ValidElements(rt, es) && |d| < I32_LIMIT && Serialize(es) == d
  {
    hide ParseFrom, LengthBytes;
    ParseFromInverse(rt, d, 4);
    HeaderUnique(d);
    assert d == d[..4] + d[4..|d| - 1] + d[|d| - 1..];
  }
}
