/** How much of a frame has to arrive before its prefix says anything: exactly the bytes up
    to the end of the command's name. */
module PrefixReach {
  import opened Primitives
  import opened Bson
  import opened Elements
  import opened Deletes
  import opened Summaries
  import opened Wire
  import R = Readings
  import PF = PrintedFrames

  lemma KindKeepsName(
    rt: Runtime, s: Summary, kind: KeyKind, ty: byte, d: Bytes, start: nat, next: Option<nat>
  )
    requires next.Some? ==> start <= next.value <= |d|
    ensures AbsorbKind(rt, s, kind, ty, d, start, next, true).firstKey == s.firstKey
  {
    hide ReadString, ReadBoolish, ReadI32ish, ReadU64ish, Summarize, Statements, ScramUser;
  }

  lemma {:induction false} WalkKeepsName(rt: Runtime, p: Bytes, offset: nat, s: Summary)
    ensures PrefixFrom(rt, p, |p|, offset, s, false).firstKey == s.firstKey
    decreases |p| - offset
  {
    hide AbsorbKind, KindOf, SkipValue, ReadCString;
    if offset < |p| && ReadCString(rt, p, offset + 1).Ok? {
      var ty := p[offset];
      var (key, start) := ReadCString(rt, p, offset + 1).value;
      var next := SkipValue(rt, p, start, ty).ToOption();
      KindKeepsName(rt, s, KindOf(key), ty, p, start, next);
      if next.Some? && start < next.value {
        WalkKeepsName(rt, p, next.value, Absorb(rt, s, false, key, ty, p, start, next, true));
      }
    }
  }

  /** The walk names the command exactly when its first key can be read. */
  lemma WalkNames(rt: Runtime, p: Bytes)
    requires |p| >= 5
    ensures PrefixFrom(rt, p, |p|, 4, EMPTY, true).firstKey ==
            (var (key, _) :- ReadCString(rt, p, 5).ToOption(); Some(key))
  {
    hide AbsorbKind, KindOf, SkipValue, ReadCString;
    if ReadCString(rt, p, 5).Ok? {
      var ty := p[4];
      var (key, start) := ReadCString(rt, p, 5).value;
      var next := SkipValue(rt, p, start, ty).ToOption();
      KindKeepsName(rt, NameCommand(rt, EMPTY, key, ty, p, start), KindOf(key), ty, p, start, next);
      if next.Some? && start < next.value {
        WalkKeepsName(rt, p, next.value, Absorb(rt, EMPTY, true, key, ty, p, start, next, true));
      }
    }
  }

  /** The first key of a document stands after its length and a type. */
  lemma FirstKeyStands(es: seq<Element>)
    requires es != []
    ensures var d, key := Serialize(es), es[0].key;
            |d| >= 7 + |key| && d[5..5 + |key|] == key && d[5 + |key|] == 0
  {
    hide LengthBytes, ElementBytes;
    KeyStands(LengthBytes(|Body(es)| + 5), es[0], Body(es[1..]));
  }

  lemma KeyStands(header: Bytes, e: Element, rest: Bytes)
    requires |header| == 4
    ensures var d := header + (ElementBytes(e) + rest) + [0];
            |d| >= 7 + |e.key| && d[5..5 + |e.key|] == e.key && d[5 + |e.key|] == 0
  {
    var d, more := header + (ElementBytes(e) + rest) + [0], e.value + rest + [0];
    assert d == (header + [e.ty]) + e.key + ([0] + more);
  }

  lemma KeyInPrefix(rt: Runtime, es: seq<Element>, p: Bytes)
    requires es != [] && ValidElement(rt, es[0]) && 5 <= |p| && p <= Serialize(es)
    ensures ReadCString(rt, p, 5).Ok? <==> |p| >= 6 + |es[0].key|
    ensures ReadCString(rt, p, 5).Ok? ==> ReadCString(rt, p, 5).value.0 == es[0].key
  {
    hide Serialize, ReadCString, SkipValue;
    var d, key := Serialize(es), es[0].key;
    FirstKeyStands(es);
    if |p| >= 6 + |key| {
      assert p[5..5 + |key|] == d[5..5 + |key|];
      CStringAt(rt, p, 5, key);
    } else if ReadCString(rt, p, 5).Ok? {
      CStringPrefix(rt, p, d, 5);
      CStringAt(rt, d, 5, key);
    }
  }

  /** A document cut anywhere is summarised exactly when its first key is all there. */
  lemma PrefixReadable(rt: Runtime, es: seq<Element>, p: Bytes)
    requires es != [] && ValidElements(rt, es) && |Serialize(es)| < I32_LIMIT
    requires p <= Serialize(es) && |p| < |Serialize(es)|
    ensures SummarizePrefix(rt, p).Ok? <==> |p| >= 6 + |es[0].key|
    ensures SummarizePrefix(rt, p).Ok? ==> SummarizePrefix(rt, p).value.firstKey == Some(es[0].key)
  {
    hide Serialize, ReadCString, PrefixFrom, I32At, ValidElement;
    SerializeFramed(es);
    if |p| >= 5 {
      assert es[0] in es;
      KeyInPrefix(rt, es, p);
      WalkNames(rt, p);
      assert SameWindow(p, 0, Serialize(es), 0, 4);
      WindowI32(p, 0, Serialize(es), 0, 4);
    }
  }

  /** The same of what follows a cut, where the document may be all there and more. */
  lemma TailReadable(rt: Runtime, es: seq<Element>, more: Bytes, p: Bytes)
    requires es != [] && ValidElements(rt, es) && |Serialize(es)| < I32_LIMIT && p <= Serialize(es) + more
    ensures SummarizePrefix(rt, p).Ok? <==> |p| >= 6 + |es[0].key|
    ensures SummarizePrefix(rt, p).Ok? ==> SummarizePrefix(rt, p).value.firstKey == Some(es[0].key)
  {
    hide Serialize, PrefixFrom, I32At, ValidElement, Summarize;
    var d := Serialize(es);
    if |p| < |d| {
      assert p == d[..|p|];
      PrefixReadable(rt, es, p);
    } else {
      SerializeFramed(es);
      FirstKeyStands(es);
      assert p[..|d|] == d;
      assert SameWindow(p, 0, d, 0, 4);
      WindowI32(p, 0, d, 0, 4);
      R.SummaryReads(rt, es, true);
    }
  }

  /** A cut OP_MSG is decoded exactly when the name of its command has arrived, and says
      what the header and the flags of the frame say. */
  lemma MsgPrefixReadable(
    rt: Runtime, requestId: int, responseTo: int, flags: nat, checksummed: bool, moreToCome: bool,
    es: seq<Element>, checksum: Bytes, prefix: Bytes, maxMessage: nat
  )
    requires -I32_LIMIT <= requestId < I32_LIMIT && -I32_LIMIT <= responseTo < I32_LIMIT
    requires PF.FlagBits(flags, checksummed, moreToCome)
    requires es != [] && ValidElements(rt, es) && 21 + |Serialize(es)| + |checksum| < I32_LIMIT
    requires 21 + |Serialize(es)| + |checksum| <= maxMessage
    requires var frame := PF.MsgFrame(requestId, responseTo, flags, es, checksum); prefix <= frame && |prefix| < |frame|
    ensures var r := DecodeFramePrefix(rt, prefix, maxMessage);
            && (r.Ok? <==> |prefix| >= 27 + |es[0].key|)
            && (r.Ok? ==>
                  && r.value.requestId == requestId && r.value.responseTo == responseTo && !r.value.compressed
                  && r.value.wireBytes == 21 + |Serialize(es)| + |checksum|
                  && r.value.flags == flags && r.value.moreToCome == moreToCome
                  && (r.value.command.Some? <==> responseTo == 0) && (r.value.status.Some? <==> responseTo != 0)
                  && (responseTo == 0 ==> r.value.command.value.name == es[0].key))
  {
    hide Serialize, Frame, U32Bytes, PF.FlagBits, ValidElement, SummarizePrefix, I32At, U32At;
    PF.BitsOf(flags, checksummed, moreToCome);
    var payload := U32Bytes(flags) + [0] + Serialize(es) + checksum;
    if |prefix| >= 16 {
      CutHeader(requestId, responseTo, payload, prefix);
      var tail := prefix[16..];
      if |tail| >= 5 {
        CutPayload(flags, Serialize(es), checksum, tail);
        TailReadable(rt, es, checksum, tail[5..]);
      }
    }
  }

  lemma CutHeader(requestId: int, responseTo: int, payload: Bytes, prefix: Bytes)
    requires -I32_LIMIT <= requestId < I32_LIMIT && -I32_LIMIT <= responseTo < I32_LIMIT
    requires 16 + |payload| < I32_LIMIT && |prefix| >= 16 && prefix <= Frame(requestId, responseTo, 2013, payload)
    ensures I32At(prefix, 0) == 16 + |payload| && I32At(prefix, 4) == requestId && I32At(prefix, 8) == responseTo
    ensures I32At(prefix, 12) == 2013 && prefix[16..] <= payload
  {
    hide Frame, I32At, U32At;
    var frame := Frame(requestId, responseTo, 2013, payload);
    FrameFields(requestId, responseTo, 2013, payload);
    assert SameWindow(prefix, 0, frame, 0, |prefix|);
    WindowI32(prefix, 0, frame, 0, 4);
    WindowI32(prefix, 4, frame, 4, 4);
    WindowI32(prefix, 8, frame, 8, 4);
    WindowI32(prefix, 12, frame, 12, 4);
    assert prefix[16..] == frame[16..][..|prefix| - 16];
  }

  lemma CutPayload(flags: nat, d: Bytes, checksum: Bytes, tail: Bytes)
    requires flags < U32_LIMIT && |tail| >= 5 && tail <= U32Bytes(flags) + [0] + d + checksum
    ensures U32At(tail, 0) == flags && tail[4] == 0 && tail[5..] <= d + checksum
  {
    hide U32Bytes, U32At;
    var payload := U32Bytes(flags) + [0] + d + checksum;
    assert payload == (U32Bytes(flags) + [0]) + (d + checksum);
    assert payload[5..] == d + checksum;
    assert tail[0..0 + 4] == U32Bytes(flags);
    U32Anywhere(tail, 0, flags);
    assert tail[5..] == payload[5..][..|tail| - 5];
  }
}
