/** Bytes, text and the little-endian integers of the MongoDB wire format.

    Text is modelled as the sequence of its UTF-8 bytes, which is how Rust stores a
    `String`. What the decoder takes from its libraries (UTF-8 validation, the reading
    of IEEE doubles, the three decompressors) is collected in `Runtime`; every
    result of the project holds for every `Runtime`. */
module Primitives {

  type byte = x: int | 0 <= x < 256
  type Bytes = seq<byte>

  datatype Option<+T> = None | Some(value: T) {
    predicate IsFailure() { None? }
    function PropagateFailure<U>(): Option<U>
      requires None?
    { None }
    function Extract(): T
      requires Some?
    { value }
  }

  datatype Result<+T, +E> = Ok(value: T) | Err(error: E) {
    predicate IsFailure() { Err? }
    function PropagateFailure<U>(): Result<U, E>
      requires Err?
    { Err(error) }
    function Extract(): T
      requires Ok?
    { value }
    function ToOption(): Option<T> {
      if Ok? then Some(value) else None
    }
  }

  /** `a.or(b)` of Rust's Option. */
  function OrElse<T>(a: Option<T>, b: Option<T>): Option<T> {
    if a.Some? then a else b
  }

  datatype Runtime = Runtime(
    utf8: Bytes -> bool,
    doubleNonZero: Bytes -> bool,
    doubleToI32: Bytes -> Option<int>,
    doubleToU64: Bytes -> Option<int>,
    doubleJsonIsNumber: Bytes -> bool,
    doubleText: Bytes -> Bytes,
    snappyLength: Bytes -> Option<nat>,
    snappy: Bytes -> Option<Bytes>,
    zlib: (Bytes, nat) -> Option<Bytes>,
    zstd: (Bytes, nat) -> Option<Bytes>
  )

  const I32_LIMIT: int := 0x8000_0000
  const U32_LIMIT: int := 0x1_0000_0000
  const U32_MAX: int := 0xFFFF_FFFF
  const U64_MAX: int := 0xFFFF_FFFF_FFFF_FFFF

  function Min(a: int, b: int): int { if a < b then a else b }

  /** `u32::try_from(n).unwrap_or(u32::MAX)`, and the u32 saturating operations. */
  function SaturateU32(n: nat): nat { Min(n, U32_MAX) }
  function SaturateU64(n: nat): nat { Min(n, U64_MAX) }

  /** The pieces one after the other. */
  function Concat(pieces: seq<Bytes>): Bytes {
    if pieces == [] then [] else pieces[0] + Concat(pieces[1..])
  }

  // ---------------------------------------------------------------- text

  function Ascii(s: string): (b: Bytes)
    ensures |b| == |s|
    ensures forall i :: 0 <= i < |s| ==> b[i] == s[i] as int % 256
  {
    seq(|s|, i requires 0 <= i < |s| => s[i] as int % 256)
  }

  function LowerByte(c: byte): byte {
    if 0x41 <= c <= 0x5A then c + 0x20 else c
  }

  /** `to_ascii_lowercase` */
  function Lower(b: Bytes): (r: Bytes)
    ensures |r| == |b|
    ensures forall i :: 0 <= i < |b| ==> r[i] == LowerByte(b[i])
  {
    seq(|b|, i requires 0 <= i < |b| => LowerByte(b[i]))
  }

  /** The text is this word, in any mixture of upper and lower case. */
  predicate Spelled(b: Bytes, word: string) {
    |b| == |word| && forall i :: 0 <= i < |b| ==>
                       b[i] == word[i] as int || ('a' <= word[i] <= 'z' && b[i] as int + 0x20 == word[i] as int)
  }

  predicate LowerCase(word: string) {
    forall i :: 0 <= i < |word| ==> 'a' <= word[i] <= 'z'
  }

  /** Folding to lower case and comparing is comparing in any case. */
  lemma SpelledFolds(b: Bytes, word: string)
    requires LowerCase(word)
    ensures Lower(b) == Ascii(word) <==> Spelled(b, word)
  {
    if Lower(b) == Ascii(word) {
      forall i | 0 <= i < |b|
        ensures b[i] == word[i] as int || ('a' <= word[i] <= 'z' && b[i] as int + 0x20 == word[i] as int)
      {
        assert Lower(b)[i] == Ascii(word)[i];
      }
    }
    if Spelled(b, word) {
      forall i | 0 <= i < |b| ensures Lower(b)[i] == Ascii(word)[i] {
      }
    }
  }

  // ---------------------------------------------------------------- integers

  function U32At(b: Bytes, offset: nat): (n: nat)
    requires offset + 4 <= |b|
    ensures n < U32_LIMIT
  {
    var b0: int, b1: int, b2: int, b3: int := b[offset], b[offset + 1], b[offset + 2], b[offset + 3];
    b0 + 0x100 * b1 + 0x1_0000 * b2 + 0x100_0000 * b3
  }

  function Signed32(n: nat): (r: int)
    requires n < U32_LIMIT
    ensures -I32_LIMIT <= r < I32_LIMIT
  {
    if n < I32_LIMIT then n else n - U32_LIMIT
  }

  function I32At(b: Bytes, offset: nat): (n: int)
    requires offset + 4 <= |b|
    ensures -I32_LIMIT <= n < I32_LIMIT
  {
    Signed32(U32At(b, offset))
  }

  function U64At(b: Bytes, offset: nat): (n: nat)
    requires offset + 8 <= |b|
    ensures n <= U64_MAX
  {
    U32At(b, offset) + U32_LIMIT * U32At(b, offset + 4)
  }

  function I64At(b: Bytes, offset: nat): int
    requires offset + 8 <= |b|
  {
    var n := U64At(b, offset);
    if n <= 0x7FFF_FFFF_FFFF_FFFF then n else n - U64_MAX - 1
  }

  function U32Bytes(n: nat): (b: Bytes)
    requires n < U32_LIMIT
    ensures |b| == 4
  {
    [n % 0x100, n / 0x100 % 0x100, n / 0x1_0000 % 0x100, n / 0x100_0000]
  }

  function I32Bytes(n: int): (b: Bytes)
    requires -I32_LIMIT <= n < I32_LIMIT
    ensures |b| == 4
  {
    U32Bytes(if n < 0 then n + U32_LIMIT else n)
  }

  function U64Bytes(n: nat): (b: Bytes)
    requires n <= U64_MAX
    ensures |b| == 8
  {
    U32Bytes(n % U32_LIMIT) + U32Bytes(n / U32_LIMIT)
  }

  /** `(n as i32).to_le_bytes()`: the length headers, wrapping like the cast does. */
  function LengthBytes(n: nat): (b: Bytes)
    ensures |b| == 4
  {
    U32Bytes(n % U32_LIMIT)
  }

  lemma U32RoundTrip(n: nat)
    requires n < U32_LIMIT
    ensures U32At(U32Bytes(n), 0) == n
  {
    var a, b, c := n % 0x100, n / 0x100 % 0x100, n / 0x1_0000 % 0x100;
    assert n / 0x100 == b + 0x100 * (n / 0x1_0000);
    assert n / 0x1_0000 == c + 0x100 * (n / 0x100_0000);
  }

  /** Four bytes read the same wherever they stand. */
  lemma U32Anywhere(b: Bytes, offset: nat, n: nat)
    requires n < U32_LIMIT
    requires offset + 4 <= |b| && b[offset..offset + 4] == U32Bytes(n)
    ensures U32At(b, offset) == n
  {
    U32RoundTrip(n);
    hide U32Bytes;
    var s := b[offset..offset + 4];
    assert s[0] == b[offset] && s[1] == b[offset + 1] && s[2] == b[offset + 2] && s[3] == b[offset + 3];
  }

  lemma I32Anywhere(b: Bytes, offset: nat, n: int)
    requires -I32_LIMIT <= n < I32_LIMIT
    requires offset + 4 <= |b| && b[offset..offset + 4] == I32Bytes(n)
    ensures I32At(b, offset) == n
  {
    hide U32Bytes;
    U32Anywhere(b, offset, if n < 0 then n + U32_LIMIT else n);
  }

  lemma LengthRoundTrip(b: Bytes, offset: nat, n: nat)
    requires n < I32_LIMIT
    requires offset + 4 <= |b| && b[offset..offset + 4] == LengthBytes(n)
    ensures I32At(b, offset) == n
  {
    hide U32Bytes;
    U32Anywhere(b, offset, n);
  }

  lemma U64RoundTrip(n: nat)
    requires n <= U64_MAX
    ensures U64At(U64Bytes(n), 0) == n
  {
    hide U32Bytes, U32At;
    var b := U64Bytes(n);
    assert b[0..0 + 4] == U32Bytes(n % U32_LIMIT);
    assert b[4..4 + 4] == U32Bytes(n / U32_LIMIT);
    U32Anywhere(b, 0, n % U32_LIMIT);
    U32Anywhere(b, 4, n / U32_LIMIT);
  }
}
