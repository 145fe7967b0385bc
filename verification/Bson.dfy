/** The readers every BSON walk is built on (crates/mongo-protocol/src/lib.rs, from
    `skip_value` down), and the one fact about them the rest of the project needs:
    what they return is determined by the bytes of the value alone, wherever those
    bytes stand and whatever surrounds them. */
module Bson {
  import opened Primitives

  datatype DecodeError =
    | InvalidFrameLength(length: int)
    | FrameTooLarge
    | BufferTooLarge
    | Truncated
    | UnsupportedOpcode(opcode: int)
    | UnsupportedSection(kind: byte)
    | InvalidBson
    | InvalidCompressed
    | UnsupportedCompressor(id: byte)
    | Decompression

  type Decoded<T> = Result<T, DecodeError>

  const TYPE_STRING: byte := 0x02
  const TYPE_DOCUMENT: byte := 0x03
  const TYPE_ARRAY: byte := 0x04
  const TYPE_BINARY: byte := 0x05
  const TYPE_REGEX: byte := 0x0b

  // ---------------------------------------------------------------- integers

  function ReadI32(b: Bytes, offset: nat): Decoded<int> {
    if offset + 4 <= |b| then Ok(I32At(b, offset)) else Err(Truncated)
  }

  // ---------------------------------------------------------------- C strings

  /** Position of the first zero byte at or after `offset`. */
  function FindZero(b: Bytes, offset: nat): (r: Option<nat>)
    requires offset <= |b|
    ensures r.Some? ==> offset <= r.value < |b| && b[r.value] == 0 && 0 !in b[offset..r.value]
    ensures r.None? ==> 0 !in b[offset..]
    decreases |b| - offset
  {
    if offset == |b| then None
    else if b[offset] == 0 then Some(offset)
    else
      var r := FindZero(b, offset + 1);
      assert b[offset..] == [b[offset]] + b[offset + 1..];
      assert r.Some? ==> b[offset..r.value] == [b[offset]] + b[offset + 1..r.value];
      r
  }

  function ReadCString(rt: Runtime, b: Bytes, offset: nat): (r: Decoded<(Bytes, nat)>)
    ensures r.Ok? ==> offset < r.value.1 <= |b| && r.value.0 == b[offset..r.value.1 - 1]
    ensures r.Ok? ==> b[r.value.1 - 1] == 0 && 0 !in r.value.0 && rt.utf8(r.value.0)
  {
    if offset > |b| then Err(InvalidBson)
    else
      match FindZero(b, offset)
      case None => Err(InvalidBson)
      case Some(end) =>
        if rt.utf8(b[offset..end]) then Ok((b[offset..end], end + 1)) else Err(InvalidBson)
  }

  // ---------------------------------------------------------------- skip_value

  function FixedWidth(ty: byte): Option<nat> {
    match ty
    case 0x01 | 0x09 | 0x11 | 0x12 => Some(8)
    case 0x07 => Some(12)
    case 0x08 => Some(1)
    case 0x0a | 0x06 | 0x7f | 0xff => Some(0)
    case 0x10 => Some(4)
    case 0x13 => Some(16)
    case _ => None
  }

  /** For the length-prefixed types: the least legal length, and the bytes of the
      value that the length does not count. */
  function LengthRule(ty: byte): Option<(nat, nat)> {
    match ty
    case 0x02 | 0x0d | 0x0e => Some((1, 4))
    case 0x03 | 0x04 | 0x0f => Some((5, 0))
    case 0x05 => Some((0, 5))
    case 0x0c => Some((1, 16))
    case _ => None
  }

  function Within(end: nat, b: Bytes): Decoded<nat> {
    if end <= |b| then Ok(end) else Err(InvalidBson)
  }

  function SkipValue(rt: Runtime, b: Bytes, offset: nat, ty: byte): (r: Decoded<nat>)
    ensures r.Ok? ==> offset <= r.value <= |b|
    ensures r.Ok? && FixedWidth(ty) != Some(0) ==> offset < r.value
  {
    match FixedWidth(ty)
    case Some(width) => Within(offset + width, b)
    case None =>
      match LengthRule(ty)
      case Some((least, extra)) =>
        var length :- ReadI32(b, offset);
        if length < least then Err(InvalidBson) else Within(offset + extra + length, b)
      case None =>
        if ty == TYPE_REGEX then
          var (_, afterPattern) :- ReadCString(rt, b, offset);
          var (_, afterOptions) :- ReadCString(rt, b, afterPattern);
          Ok(afterOptions)
        else Err(InvalidBson)
  }

  // ---------------------------------------------------------------- typed readers

  function ReadString(rt: Runtime, b: Bytes, offset: nat): Decoded<Bytes> {
    var length :- ReadI32(b, offset);
    if length < 1 then Err(InvalidBson)
    else
      var start := offset + 4;
      var end := start + length;
      if end > |b| || b[end - 1] != 0 || !rt.utf8(b[start..end - 1]) then Err(InvalidBson)
      else Ok(b[start..end - 1])
  }

  function ReadBinary(b: Bytes, offset: nat): Decoded<Bytes> {
    var length :- ReadI32(b, offset);
    if length < 0 then Err(InvalidBson)
    else
      var start := offset + 5;
      if start + length <= |b| then Ok(b[start..start + length]) else Err(InvalidBson)
  }

  /** The eight bytes at `offset`, when they are all there. */
  function Octet(b: Bytes, offset: nat): Option<Bytes> {
    if offset + 8 <= |b| then Some(b[offset..offset + 8]) else None
  }

  function ReadBoolish(rt: Runtime, b: Bytes, offset: nat, ty: byte): Option<bool> {
    match ty
    case 0x01 => var raw :- Octet(b, offset); Some(rt.doubleNonZero(raw))
    case 0x08 => if offset < |b| then Some(b[offset] != 0) else None
    case 0x10 => if offset + 4 <= |b| then Some(I32At(b, offset) != 0) else None
    case 0x12 => if offset + 8 <= |b| then Some(I64At(b, offset) != 0) else None
    case _ => None
  }

  function ReadI32ish(rt: Runtime, b: Bytes, offset: nat, ty: byte): Option<int> {
    match ty
    case 0x10 => ReadI32(b, offset).ToOption()
    case 0x12 =>
      if offset + 8 <= |b| && -I32_LIMIT <= I64At(b, offset) < I32_LIMIT
      then Some(I64At(b, offset)) else None
    case 0x01 => var raw :- Octet(b, offset); rt.doubleToI32(raw)
    case _ => None
  }

  function ReadU64ish(rt: Runtime, b: Bytes, offset: nat, ty: byte): Option<int> {
    match ty
    case 0x10 =>
      if offset + 4 <= |b| && I32At(b, offset) >= 0 then Some(I32At(b, offset)) else None
    case 0x12 =>
      if offset + 8 <= |b| && I64At(b, offset) >= 0 then Some(I64At(b, offset)) else None
    case 0x01 => var raw :- Octet(b, offset); rt.doubleToU64(raw)
    case _ => None
  }

  // ---------------------------------------------------------------- locality

  /** `a` from `i` and `b` from `j` hold the same `n` bytes. */
  predicate SameWindow(a: Bytes, i: nat, b: Bytes, j: nat, n: nat) {
    i + n <= |a| && j + n <= |b| && a[i..i + n] == b[j..j + n]
  }

  lemma WindowAt(a: Bytes, i: nat, b: Bytes, j: nat, n: nat, k: nat)
    requires SameWindow(a, i, b, j, n) && k < n
    ensures a[i + k] == b[j + k]
  {
    assert a[i..i + n][k] == b[j..j + n][k];
  }

  lemma WindowPart(a: Bytes, i: nat, b: Bytes, j: nat, n: nat, from: nat, m: nat)
    requires SameWindow(a, i, b, j, n) && from + m <= n
    ensures SameWindow(a, i + from, b, j + from, m)
  {
    var x, y := a[i + from..i + from + m], b[j + from..j + from + m];
    forall k | 0 <= k < m ensures x[k] == y[k] {
      WindowAt(a, i, b, j, n, from + k);
    }
  }

  lemma WindowI32(a: Bytes, i: nat, b: Bytes, j: nat, n: nat)
    requires SameWindow(a, i, b, j, n) && n >= 4
    ensures U32At(a, i) == U32At(b, j) && I32At(a, i) == I32At(b, j)
  {
    WindowAt(a, i, b, j, n, 0);
    WindowAt(a, i, b, j, n, 1);
    WindowAt(a, i, b, j, n, 2);
    WindowAt(a, i, b, j, n, 3);
  }

  lemma WindowI64(a: Bytes, i: nat, b: Bytes, j: nat, n: nat)
    requires SameWindow(a, i, b, j, n) && n >= 8
    ensures U64At(a, i) == U64At(b, j) && I64At(a, i) == I64At(b, j)
    ensures Octet(a, i) == Octet(b, j)
  {
    WindowI32(a, i, b, j, n);
    WindowPart(a, i, b, j, n, 4, n - 4);
    WindowI32(a, i + 4, b, j + 4, n - 4);
    WindowPart(a, i, b, j, n, 0, 8);
  }

  /** A C string is found wherever its bytes and its terminator stand. */
  lemma CStringAt(rt: Runtime, b: Bytes, offset: nat, key: Bytes)
    requires 0 !in key && rt.utf8(key)
    requires offset + |key| < |b| && b[offset..offset + |key|] == key && b[offset + |key|] == 0
    ensures ReadCString(rt, b, offset) == Ok((key, offset + |key| + 1))
  {
    var end := offset + |key|;
    assert b[offset..][|key|] == b[end];
    forall z | offset <= z < end ensures b[z] != 0 {
      assert b[z] == key[z - offset];
    }
    forall z | end < z <= |b| ensures 0 in b[offset..z] {
      assert b[offset..z][|key|] == b[end];
    }
  }

  lemma CStringWindow(rt: Runtime, a: Bytes, i: nat, b: Bytes, j: nat, n: nat)
    requires ReadCString(rt, a, i).Ok? && ReadCString(rt, a, i).value.1 <= i + n
    requires SameWindow(a, i, b, j, n)
    ensures var (key, end) := ReadCString(rt, a, i).value;
            ReadCString(rt, b, j) == Ok((key, j + (end - i)))
  {
    var (key, end) := ReadCString(rt, a, i).value;
    WindowPart(a, i, b, j, n, 0, |key|);
    WindowAt(a, i, b, j, n, |key|);
    CStringAt(rt, b, j, key);
  }

  lemma RegexWindow(rt: Runtime, a: Bytes, i: nat, b: Bytes, j: nat, n: nat)
    requires SkipValue(rt, a, i, TYPE_REGEX) == Ok(i + n)
    requires SameWindow(a, i, b, j, n)
    ensures SkipValue(rt, b, j, TYPE_REGEX) == Ok(j + n)
  {
    hide ReadCString, SameWindow;
    var (_, mid) := ReadCString(rt, a, i).value;
    CStringWindow(rt, a, i, b, j, n);
    WindowPart(a, i, b, j, n, mid - i, n - (mid - i));
    CStringWindow(rt, a, mid, b, j + (mid - i), n - (mid - i));
  }

  /** `skip_value` depends on the value's bytes only. */
  lemma SkipWindow(rt: Runtime, a: Bytes, i: nat, b: Bytes, j: nat, n: nat, ty: byte)
    requires SkipValue(rt, a, i, ty) == Ok(i + n)
    requires SameWindow(a, i, b, j, n)
    ensures SkipValue(rt, b, j, ty) == Ok(j + n)
  {
    hide ReadCString, I32At, U32At;
    if FixedWidth(ty).None? {
      if LengthRule(ty).Some? {
        WindowI32(a, i, b, j, n);
      } else {
        RegexWindow(rt, a, i, b, j, n);
      }
    }
  }

  /** So do the typed readers, once `skip_value` accepts the value. */
  lemma ScalarsWindow(rt: Runtime, a: Bytes, i: nat, b: Bytes, j: nat, n: nat, ty: byte)
    requires SkipValue(rt, a, i, ty) == Ok(i + n)
    requires SameWindow(a, i, b, j, n)
    ensures ReadBoolish(rt, a, i, ty) == ReadBoolish(rt, b, j, ty)
    ensures ReadI32ish(rt, a, i, ty) == ReadI32ish(rt, b, j, ty)
    ensures ReadU64ish(rt, a, i, ty) == ReadU64ish(rt, b, j, ty)
  {
    if n >= 8 { WindowI64(a, i, b, j, n); }
    if n >= 4 { WindowI32(a, i, b, j, n); }
    if n >= 1 { WindowAt(a, i, b, j, n, 0); }
  }

  lemma StringWindow(rt: Runtime, a: Bytes, i: nat, b: Bytes, j: nat, n: nat, ty: byte)
    requires SkipValue(rt, a, i, ty) == Ok(i + n)
    requires SameWindow(a, i, b, j, n)
    requires ty == TYPE_STRING || ty == 0x0c || ty == 0x0d || ty == 0x0e
    ensures ReadString(rt, a, i) == ReadString(rt, b, j)
  {
    WindowI32(a, i, b, j, n);
    var length := I32At(a, i);
    WindowPart(a, i, b, j, n, 4, length - 1);
    WindowAt(a, i, b, j, n, 4 + length - 1);
  }

  lemma BinaryWindow(rt: Runtime, a: Bytes, i: nat, b: Bytes, j: nat, n: nat)
    requires SkipValue(rt, a, i, TYPE_BINARY) == Ok(i + n)
    requires SameWindow(a, i, b, j, n)
    ensures ReadBinary(a, i) == ReadBinary(b, j)
  {
    WindowI32(a, i, b, j, n);
    WindowPart(a, i, b, j, n, 5, I32At(a, i));
  }

  /** Cutting a buffer short never changes an answer, it only loses answers. */
  lemma SkipPrefix(rt: Runtime, p: Bytes, d: Bytes, offset: nat, ty: byte)
    requires p <= d && SkipValue(rt, p, offset, ty).Ok?
    ensures SkipValue(rt, d, offset, ty) == SkipValue(rt, p, offset, ty)
  {
    var n := SkipValue(rt, p, offset, ty).value - offset;
    hide SkipValue;
    SkipWindow(rt, p, offset, d, offset, n, ty);
  }

  lemma ScalarsPrefix(rt: Runtime, p: Bytes, d: Bytes, offset: nat, ty: byte)
    requires p <= d
    ensures ReadBoolish(rt, p, offset, ty).Some? ==> ReadBoolish(rt, d, offset, ty) == ReadBoolish(rt, p, offset, ty)
    ensures ReadI32ish(rt, p, offset, ty).Some? ==> ReadI32ish(rt, d, offset, ty) == ReadI32ish(rt, p, offset, ty)
    ensures ReadU64ish(rt, p, offset, ty).Some? ==> ReadU64ish(rt, d, offset, ty) == ReadU64ish(rt, p, offset, ty)
  {
    if offset <= |p| {
      var n := |p| - offset;
      assert SameWindow(p, offset, d, offset, n);
      if n >= 8 { WindowI64(p, offset, d, offset, n); }
      if n >= 4 { WindowI32(p, offset, d, offset, n); }
    }
  }

  lemma StringsPrefix(rt: Runtime, p: Bytes, d: Bytes, offset: nat)
    requires p <= d
    ensures ReadString(rt, p, offset).Ok? ==> ReadString(rt, d, offset) == ReadString(rt, p, offset)
    ensures ReadBinary(p, offset).Ok? ==> ReadBinary(d, offset) == ReadBinary(p, offset)
  {
    if offset + 4 <= |p| {
      var n := |p| - offset;
      assert SameWindow(p, offset, d, offset, n);
      WindowI32(p, offset, d, offset, n);
      if ReadString(rt, p, offset).Ok? {
        WindowPart(p, offset, d, offset, n, 4, I32At(p, offset) - 1);
      }
      if ReadBinary(p, offset).Ok? {
        WindowPart(p, offset, d, offset, n, 5, I32At(p, offset));
      }
    }
  }

  lemma CStringPrefix(rt: Runtime, p: Bytes, d: Bytes, offset: nat)
    requires p <= d && ReadCString(rt, p, offset).Ok?
    ensures ReadCString(rt, d, offset) == ReadCString(rt, p, offset)
  {
    var n := |p| - offset;
    assert SameWindow(p, offset, d, offset, n);
    CStringWindow(rt, p, offset, d, offset, n);
  }
}
