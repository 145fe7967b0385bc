/** Which errors the frame decoders can report: none of them is a buffer error. */
module ErrorKinds {
  import opened Primitives
  import opened Bson
  import opened Elements
  import opened Deletes
  import opened Summaries
  import opened Wire

  /** The errors of the BSON walks. */
  predicate Malformed<T(!new)>(r: Decoded<T>) {
    r.Err? ==> r.error == InvalidBson || r.error == Truncated
  }

  predicate NotBuffer<T(!new)>(r: Decoded<T>) {
    r.Err? ==> r.error != BufferTooLarge
  }

  lemma SkipErrors(rt: Runtime, b: Bytes, offset: nat, ty: byte)
    ensures Malformed(SkipValue(rt, b, offset, ty)) && Malformed(ReadCString(rt, b, offset))
  {
  }

  lemma {:induction false} ParseErrors(rt: Runtime, d: Bytes, offset: nat)
    requires |d| >= 1
    ensures Malformed(ParseFrom(rt, d, offset))
    decreases |d| - offset
  {
    hide SkipValue, ReadCString;
    if offset < |d| - 1 {
      SkipErrors(rt, d, offset + 1, d[offset]);
      var read := ReadCString(rt, d, offset + 1);
      if read.Ok? {
        SkipErrors(rt, d, read.value.1, d[offset]);
        var next := SkipValue(rt, d, read.value.1, d[offset]);
        if next.Ok? && next.value <= |d| - 1 { ParseErrors(rt, d, next.value); }
      }
    }
  }

  lemma SummarizeErrors(rt: Runtime, d: Bytes)
    ensures Malformed(Summarize(rt, d, true))
  {
    hide ParseFrom, Fold, WithQuery;
    if Framed(d) { ParseErrors(rt, d, 4); }
  }

  lemma PrefixErrors(rt: Runtime, p: Bytes)
    ensures Malformed(SummarizePrefix(rt, p))
  {
    hide Summarize, PrefixFrom, I32At;
    if |p| >= 5 && 5 <= I32At(p, 0) <= |p| { SummarizeErrors(rt, p[..I32At(p, 0)]); }
  }

  lemma {:induction false} LimitErrors(rt: Runtime, d: Bytes, offset: nat)
    requires |d| >= 1
    ensures Malformed(LimitFrom(rt, d, offset))
    decreases |d| - offset
  {
    hide SkipValue, ReadCString;
    if offset < |d| - 1 {
      SkipErrors(rt, d, offset + 1, d[offset]);
      var read := ReadCString(rt, d, offset + 1);
      if read.Ok? {
        SkipErrors(rt, d, read.value.1, d[offset]);
        var next := SkipValue(rt, d, read.value.1, d[offset]);
        if next.Ok? { LimitErrors(rt, d, next.value); }
      }
    }
  }

  lemma {:induction false} SequenceErrors(rt: Runtime, documents: Bytes, offset: nat, t: Tally)
    requires offset <= |documents|
    ensures Malformed(SequenceFrom(rt, documents, offset, t))
    decreases |documents| - offset
  {
    hide LimitFrom, I32At;
    if offset + 4 <= |documents| {
      var length := I32At(documents, offset);
      if 5 <= length && offset + length <= |documents| {
        var d := documents[offset..offset + length];
        if Framed(d) { LimitErrors(rt, d, 4); }
        var limit := StatementLimit(rt, d);
        if limit.Ok? { SequenceErrors(rt, documents, offset + length, Count(t, limit.value)); }
      }
    }
  }

  lemma BodySectionErrors(rt: Runtime, payload: Bytes, end: nat, offset: nat, acc: Sections)
    requires end <= |payload|
    ensures Malformed(BodySection(rt, payload, end, offset, acc))
  {
    hide Summarize, I32At;
    if offset + 4 <= |payload| {
      var length := I32At(payload, offset);
      if 5 <= length && offset + length <= end { SummarizeErrors(rt, payload[offset..offset + length]); }
    }
  }

  lemma SequenceSectionErrors(rt: Runtime, payload: Bytes, end: nat, offset: nat, acc: Sections)
    requires end <= |payload|
    ensures Malformed(SequenceSection(rt, payload, end, offset, acc))
  {
    hide I32At, ReadCString, SequenceFrom;
    SkipErrors(rt, payload, offset + 4, 0);
    if offset + 4 <= |payload| {
      var read := ReadCString(rt, payload, offset + 4);
      var end' := offset + I32At(payload, offset);
      if read.Ok? && read.value.1 <= end' <= end {
        SequenceErrors(rt, payload[read.value.1..end'], 0, NOTHING);
      }
    }
  }

  lemma {:induction false} SectionsErrors(rt: Runtime, payload: Bytes, end: nat, offset: nat, acc: Sections)
    requires end <= |payload|
    ensures NotBuffer(SectionsFrom(rt, payload, end, offset, acc))
    decreases end - offset
  {
    hide BodySection, SequenceSection;
    if offset < end {
      BodySectionErrors(rt, payload, end, offset + 1, acc);
      SequenceSectionErrors(rt, payload, end, offset + 1, acc);
      if payload[offset] == 0 {
        var r := BodySection(rt, payload, end, offset + 1, acc);
        if r.Ok? { SectionsErrors(rt, payload, end, r.value.1, r.value.0); }
      } else if payload[offset] == 1 {
        var r := SequenceSection(rt, payload, end, offset + 1, acc);
        if r.Ok? { SectionsErrors(rt, payload, end, r.value.1, r.value.0); }
      }
    }
  }

  lemma DocumentErrors(rt: Runtime, payload: Bytes, offset: nat)
    ensures offset <= |payload| ==> Malformed(SummarizePrefix(rt, payload[offset..]))
    ensures offset + 4 <= |payload| && 0 <= I32At(payload, offset) <= |payload| - offset ==>
              Malformed(Summarize(rt, payload[offset..offset + I32At(payload, offset)], true))
  {
    hide SummarizePrefix, Summarize, I32At;
    if offset <= |payload| { PrefixErrors(rt, payload[offset..]); }
    if offset + 4 <= |payload| && 0 <= I32At(payload, offset) <= |payload| - offset {
      SummarizeErrors(rt, payload[offset..offset + I32At(payload, offset)]);
    }
  }

  lemma PlainErrors(rt: Runtime, env: Envelope, opcode: int, payload: Bytes)
    ensures NotBuffer(DecodePlain(rt, env, opcode, payload))
  {
    hide SectionsFrom, Merged, I32At, U32At, ReadCString, Summarize, OpMsgMessage, OpQueryMessage, OpReplyMessage;
    if |payload| >= 5 && |payload| >= 4 + ChecksumBytes(U32At(payload, 0)) {
      SectionsErrors(rt, payload, |payload| - ChecksumBytes(U32At(payload, 0)), 4, NO_SECTIONS);
    }
    SkipErrors(rt, payload, 4, 0);
    DocumentErrors(rt, payload, 20);
    var read := ReadCString(rt, payload, 4);
    if read.Ok? { DocumentErrors(rt, payload, read.value.1 + 8); }
  }

  lemma PlainPrefixErrors(rt: Runtime, env: Envelope, payload: Bytes)
    ensures NotBuffer(DecodeOpMsgPrefix(rt, env, payload))
    ensures NotBuffer(DecodeOpQueryPrefix(rt, env, payload))
    ensures NotBuffer(DecodeOpReplyPrefix(rt, env, payload))
  {
    hide I32At, U32At, ReadCString, SummarizePrefix, OpMsgMessage, OpQueryMessage, OpReplyMessage;
    SkipErrors(rt, payload, 4, 0);
    DocumentErrors(rt, payload, 5);
    DocumentErrors(rt, payload, 20);
    var read := ReadCString(rt, payload, 4);
    if read.Ok? { DocumentErrors(rt, payload, read.value.1 + 8); }
  }

  lemma FrameErrors(rt: Runtime, frame: Bytes, max: nat)
    ensures NotBuffer(DecodeFrame(rt, frame, max))
  {
    hide I32At, DecodePlain;
    if |frame| >= 16 {
      var env := Envelope(I32At(frame, 4), I32At(frame, 8), |frame|, false);
      var payload := frame[16..];
      PlainErrors(rt, env, I32At(frame, 12), payload);
      if |payload| >= 9 && I32At(payload, 4) >= 0 {
        var data := Decompress(rt, payload[8], payload[9..], I32At(payload, 4));
        if data.Ok? { PlainErrors(rt, env.(compressed := true), I32At(payload, 0), data.value); }
      }
    }
  }

  lemma FramePrefixErrors(rt: Runtime, prefix: Bytes, max: nat)
    ensures NotBuffer(DecodeFramePrefix(rt, prefix, max))
  {
    hide I32At, DecodeFrame, DecodeOpMsgPrefix, DecodeOpQueryPrefix, DecodeOpReplyPrefix;
    if |prefix| >= 16 {
      var declared := I32At(prefix, 0);
      if 0 <= declared <= |prefix| {
        FrameErrors(rt, prefix[..declared], max);
      } else if declared >= 16 {
        PlainPrefixErrors(rt, Envelope(I32At(prefix, 4), I32At(prefix, 8), declared, false), prefix[16..]);
      }
    }
  }
}
