/** Exactly what the readers accept, byte by byte, and so what they refuse: numbers by the
    place of each byte, values by type, strings by their printed form, user names by what
    they may hold, and whole frames by their headers and sections. */
module Refusals {
  import opened Primitives
  import opened Bson
  import opened Wire
  import Scram
  import opened Summaries

  // ---------------------------------------------------------------- numbers

  /** The byte at `place` of a number written with its lowest byte first. */
  function ByteOf(n: nat, place: nat): nat
    decreases place
  {
    if place == 0 then n % 256 else ByteOf(n / 256, place - 1)
  }

  /** Four bytes, lowest first; a number is negative when its highest bit is set. */
  lemma ByteOrder(b: Bytes, o: nat)
    requires o + 4 <= |b|
    ensures ByteOf(U32At(b, o), 0) == b[o] && ByteOf(U32At(b, o), 1) == b[o + 1]
    ensures ByteOf(U32At(b, o), 2) == b[o + 2] && ByteOf(U32At(b, o), 3) == b[o + 3]
    ensures I32At(b, o) < 0 <==> b[o + 3] >= 128
    ensures (I32At(b, o) - U32At(b, o)) % 0x1_0000_0000 == 0
  {
    var n := U32At(b, o);
    var b0: int, b1: int, b2: int, b3: int := b[o], b[o + 1], b[o + 2], b[o + 3];
    assert n == b0 + 256 * (b1 + 256 * (b2 + 256 * b3));
    assert n % 256 == b0 && n / 256 == b1 + 256 * (b2 + 256 * b3);
    assert n / 256 / 256 == b2 + 256 * b3;
    assert n / 256 / 256 / 256 == b3;
  }

  /** A length header reads as `n` exactly when it is the header printed for `n`. */
  lemma HeaderIff(b: Bytes, o: nat, n: nat)
    requires o + 4 <= |b| && n < I32_LIMIT
    ensures I32At(b, o) == n <==> b[o..o + 4] == LengthBytes(n)
  {
    hide U32At, U32Bytes;
    if b[o..o + 4] == LengthBytes(n) {
      LengthRoundTrip(b, o, n);
    } else if I32At(b, o) == n {
      HeaderUnique(b, o);
    }
  }

  lemma HeaderUnique(b: Bytes, o: nat)
    requires o + 4 <= |b|
    ensures b[o..o + 4] == U32Bytes(U32At(b, o))
  {
    var n := U32At(b, o);
    var b0: int, b1: int, b2: int, b3: int := b[o], b[o + 1], b[o + 2], b[o + 3];
    assert n / 0x100_0000 == b3;
    assert n / 0x1_0000 == b2 + 256 * b3;
    assert n / 0x100 == b1 + 256 * (b2 + 256 * b3);
  }

  // ---------------------------------------------------------------- values

  /** How many bytes a value of this type takes, counted from its first byte. */
  ghost predicate Takes(rt: Runtime, ty: byte, b: Bytes, o: nat, n: nat) {
    if ty == 1 || ty == 9 || ty == 17 || ty == 18 then n == 8
    else if ty == 7 then n == 12
    else if ty == 8 then n == 1
    else if ty == 6 || ty == 10 || ty == 127 || ty == 255 then n == 0
    else if ty == 16 then n == 4
    else if ty == 19 then n == 16
    else if ty == 2 || ty == 13 || ty == 14 then o + 4 <= |b| && I32At(b, o) >= 1 && n == 4 + I32At(b, o)
    else if ty == 3 || ty == 4 || ty == 15 then o + 4 <= |b| && I32At(b, o) >= 5 && n == I32At(b, o)
    else if ty == 5 then o + 4 <= |b| && I32At(b, o) >= 0 && n == 5 + I32At(b, o)
    else if ty == 12 then o + 4 <= |b| && I32At(b, o) >= 1 && n == 16 + I32At(b, o)
    else ty == 11 && exists k :: 0 < k < n && CStringOf(rt, b, o, k) && CStringOf(rt, b, o + k, n - k)
  }

  /** UTF-8 text of `n - 1` bytes and the first zero after it. */
  ghost predicate CStringOf(rt: Runtime, b: Bytes, o: nat, n: nat) {
    && 1 <= n && o + n <= |b| && b[o + n - 1] == 0
    && (forall i :: o <= i < o + n - 1 ==> b[i] != 0) && rt.utf8(b[o..o + n - 1])
  }

  lemma CStringReads(rt: Runtime, b: Bytes, o: nat, n: nat)
    ensures CStringOf(rt, b, o, n) <==> n > 0 && ReadCString(rt, b, o) == Ok((if o + n <= |b| && n > 0 then b[o..o + n - 1] else [], o + n))
  {
    if CStringOf(rt, b, o, n) {
      CStringAt(rt, b, o, b[o..o + n - 1]);
    }
  }

  lemma RegexReads(rt: Runtime, b: Bytes, o: nat, n: nat)
    ensures SkipValue(rt, b, o, 11) == Ok(o + n) <==>
            exists k :: 0 < k < n && CStringOf(rt, b, o, k) && CStringOf(rt, b, o + k, n - k)
  {
    hide ReadCString, CStringOf;
    if k :| 0 < k < n && CStringOf(rt, b, o, k) && CStringOf(rt, b, o + k, n - k) {
      CStringReads(rt, b, o, k);
      CStringReads(rt, b, o + k, n - k);
    }
    if SkipValue(rt, b, o, 11) == Ok(o + n) {
      var mid := ReadCString(rt, b, o).value.1;
      CStringReads(rt, b, o, mid - o);
      CStringReads(rt, b, mid, o + n - mid);
    }
  }

  /** A value is stepped over exactly when the bytes its type takes are there; any other
      type is refused. */
  lemma SkipReads(rt: Runtime, b: Bytes, o: nat, ty: byte, n: nat)
    ensures SkipValue(rt, b, o, ty) == Ok(o + n) <==> Takes(rt, ty, b, o, n) && o + n <= |b|
  {
    hide I32At, CStringOf, ReadCString;
    if ty == 11 {
      RegexReads(rt, b, o, n);
    }
  }

  /** A string is read exactly when its length, its text and a zero stand there. */
  lemma StringReads(rt: Runtime, b: Bytes, o: nat, text: Bytes)
    ensures ReadString(rt, b, o) == Ok(text) <==>
            && o + 5 + |text| <= |b| && |text| + 1 < I32_LIMIT && rt.utf8(text)
            && b[o..o + 4] == LengthBytes(|text| + 1) && b[o + 4..o + 4 + |text|] == text && b[o + 4 + |text|] == 0
  {
    hide LengthBytes, I32At;
    if o + 5 + |text| <= |b| && |text| + 1 < I32_LIMIT {
      HeaderIff(b, o, |text| + 1);
    }
  }

  /** A binary is read exactly when its length, some subtype and its bytes stand there. */
  lemma BinaryReads(b: Bytes, o: nat, data: Bytes)
    ensures ReadBinary(b, o) == Ok(data) <==>
            && o + 5 + |data| <= |b| && |data| < I32_LIMIT
            && b[o..o + 4] == LengthBytes(|data|) && b[o + 5..o + 5 + |data|] == data
  {
    hide LengthBytes, I32At;
    if o + 5 + |data| <= |b| && |data| < I32_LIMIT {
      HeaderIff(b, o, |data|);
    }
  }

  // ---------------------------------------------------------------- user names

  /** A SCRAM payload names a user only within these limits, whatever it holds. */
  lemma PrincipalBounded(rt: Runtime, payload: Bytes)
    ensures Scram.ParsePrincipal(rt, payload).Some? ==>
              var user := Scram.ParsePrincipal(rt, payload).value;
              && rt.utf8(payload) && 0 < |user| <= 256
              && forall i :: 0 <= i < |user| ==> !Scram.IsControl(user, i)
  {
    hide Scram.Unescape, Scram.HasControl, Scram.IsControl;
    if Scram.ParsePrincipal(rt, payload).Some? {
      Scram.ControlMeans(Scram.ParsePrincipal(rt, payload).value);
    }
  }

  // ---------------------------------------------------------------- frames

  /** From `offset` to `end`: sections of kind 0 and 1 and nothing else, each as long as it
      says; `bodies` of them are of kind 0. */
  ghost predicate Chained(payload: Bytes, offset: nat, end: nat, bodies: nat)
    requires end <= |payload|
    decreases end - offset
  {
    if offset >= end then offset == end && bodies == 0
    else
      && payload[offset] <= 1 && offset + 5 <= end && I32At(payload, offset + 1) >= 5
      && offset + 1 + I32At(payload, offset + 1) <= end
      && (payload[offset] == 0 ==> bodies > 0)
      && Chained(payload, offset + 1 + I32At(payload, offset + 1), end, if payload[offset] == 0 then bodies - 1 else bodies)
  }

  lemma {:induction false} SectionsChained(rt: Runtime, payload: Bytes, offset: nat, end: nat, acc: Sections) returns (bodies: nat)
    requires offset <= end <= |payload| && SectionsFrom(rt, payload, end, offset, acc).Ok?
    ensures Chained(payload, offset, end, bodies)
    ensures SectionsFrom(rt, payload, end, offset, acc).value.summary.Some? <==> acc.summary.Some? || bodies > 0
    decreases end - offset
  {
    hide BodySection, SequenceSection, I32At;
    if offset == end {
      bodies := 0;
    } else if payload[offset] == 0 {
      BodyStep(rt, payload, end, offset + 1, acc);
      var (acc', next) := BodySection(rt, payload, end, offset + 1, acc).value;
      bodies := SectionsChained(rt, payload, next, end, acc');
      bodies := bodies + 1;
    } else {
      SequenceStep(rt, payload, end, offset + 1, acc);
      var (acc', next) := SequenceSection(rt, payload, end, offset + 1, acc).value;
      bodies := SectionsChained(rt, payload, next, end, acc');
    }
  }

  /** A section as long as it says, from its length on. */
  predicate Sized(payload: Bytes, offset: nat, end: nat, next: nat)
    requires end <= |payload|
  {
    offset + 4 <= end && I32At(payload, offset) >= 5 && next == offset + I32At(payload, offset) <= end
  }

  lemma BodyStep(rt: Runtime, payload: Bytes, end: nat, offset: nat, acc: Sections)
    requires end <= |payload| && BodySection(rt, payload, end, offset, acc).Ok?
    ensures var (after, next) := BodySection(rt, payload, end, offset, acc).value;
            after.summary.Some? && Sized(payload, offset, end, next)
  {
    hide Summarize, I32At;
  }

  lemma SequenceStep(rt: Runtime, payload: Bytes, end: nat, offset: nat, acc: Sections)
    requires end <= |payload| && SequenceSection(rt, payload, end, offset, acc).Ok?
    ensures var (after, next) := SequenceSection(rt, payload, end, offset, acc).value;
            after.summary == acc.summary && Sized(payload, offset, end, next)
  {
    hide ReadCString, I32At;
  }

  lemma LowestBit(b: Bytes)
    requires |b| >= 4
    ensures U32At(b, 0) % 2 == b[0] as int % 2
  {
  }

  /** An OP_MSG is accepted only if, between its flags and its checksum, it is a chain of
      sections with a body among them. */
  lemma MsgAccepted(rt: Runtime, env: Envelope, payload: Bytes)
    requires DecodeOpMsg(rt, env, payload).Ok?
    ensures |payload| >= 5
    ensures var end := |payload| - if payload[0] % 2 == 1 then 4 else 0;
            end >= 4 && exists bodies :: bodies > 0 && Chained(payload, 4, end, bodies)
  {
    hide SectionsFrom, Merged, OpMsgMessage, Chained, U32At;
    LowestBit(payload);
    var end := |payload| - if payload[0] % 2 == 1 then 4 else 0;
    var bodies := SectionsChained(rt, payload, 4, end, NO_SECTIONS);
    assert bodies > 0 && Chained(payload, 4, end, bodies);
  }

  /** The header every accepted frame has, and the limits it keeps. */
  lemma FrameAccepted(rt: Runtime, frame: Bytes, maxMessage: nat)
    requires DecodeFrame(rt, frame, maxMessage).Ok?
    ensures 16 <= |frame| <= maxMessage && I32At(frame, 0) == |frame|
    ensures I32At(frame, 12) in {1, 2004, 2012, 2013}
    ensures I32At(frame, 12) == 2012 ==>
              && |frame| >= 25 && I32At(frame, 16) in {1, 2004, 2013} && frame[24] <= 3
              && 0 <= I32At(frame, 20) <= maxMessage - 16
              && (frame[24] == 0 ==> I32At(frame, 20) == |frame| - 25)
              && (frame[24] == 1 ==> rt.snappyLength(frame[25..]) == Some(I32At(frame, 20)))
  {
    hide DecodeOpMsg, DecodeOpQuery, DecodeOpReply, U32At;
    var payload := frame[16..];
    if I32At(frame, 12) == 2012 {
      assert payload[9..] == frame[25..];
      WindowI32(payload, 0, frame, 16, 4);
      WindowI32(payload, 4, frame, 20, 4);
    }
  }
}
