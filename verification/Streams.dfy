/** The stream reassembler (`StreamDecoder`): frames out of a byte stream that arrives in
    arbitrary pieces. */
module Streams {
  import opened Primitives
  import opened Bson
  import opened Wire
  import opened ErrorKinds

  datatype Config = Config(maxMessage: nat, maxBuffer: nat)

  /** What one pass over the buffer yields: the messages, what stays in the buffer, and
      the error that stopped the pass, if one did. */
  datatype Drained = Drained(messages: seq<Message>, rest: Bytes, error: Option<DecodeError>)

  function Drain(rt: Runtime, max: nat, buffer: Bytes): Drained
    decreases |buffer|
  {
    if |buffer| < 4 then Drained([], buffer, None)
    else
      var length := I32At(buffer, 0);
      if length < 16 then Drained([], [], Some(InvalidFrameLength(length)))
      else if length > max then Drained([], [], Some(FrameTooLarge))
      else if |buffer| < length then Drained([], buffer, None)
      else
        match DecodeFrame(rt, buffer[..length], max)
        case Err(e) => Drained([], buffer[length..], Some(e))
        case Ok(m) => Prepend(m, Drain(rt, max, buffer[length..]))
  }

  function Prepend(m: Message, d: Drained): Drained {
    d.(messages := [m] + d.messages)
  }

  /** The inputs that pass hands to `decode_frame`, in order. */
  function DecodeInputs(rt: Runtime, max: nat, buffer: Bytes): seq<Bytes>
    decreases |buffer|
  {
    if |buffer| < 4 then []
    else
      var length := I32At(buffer, 0);
      if length < 16 || length > max || |buffer| < length then []
      else if DecodeFrame(rt, buffer[..length], max).Err? then [buffer[..length]]
      else [buffer[..length]] + DecodeInputs(rt, max, buffer[length..])
  }

  /** The bytes of a frame that has not all arrived. */
  predicate Unfinished(max: nat, buffer: Bytes) {
    |buffer| < 4 || (16 <= I32At(buffer, 0) <= max && |buffer| < I32At(buffer, 0))
  }

  type Pushed = (Bytes, Decoded<seq<Message>>)

  function AsResult(d: Drained): Pushed {
    (d.rest, if d.error.None? then Ok(d.messages) else Err(d.error.value))
  }

  /** `push`: the new buffer, and what the caller gets. */
  function Push(rt: Runtime, cfg: Config, buffer: Bytes, bytes: Bytes): Pushed {
    if |buffer| + |bytes| > cfg.maxBuffer then ([], Err(BufferTooLarge))
    else AsResult(Drain(rt, cfg.maxMessage, buffer + bytes))
  }

  function NextFrameLength(max: nat, buffer: Bytes, bytes: Bytes): Decoded<Option<nat>> {
    if |buffer| + |bytes| < 4 then Ok(None)
    else
      var length := I32At(buffer + bytes, 0);
      if length < 16 then Err(InvalidFrameLength(length))
      else if length > max then Err(FrameTooLarge)
      else Ok(Some(length))
  }

  function PushTruncated(rt: Runtime, cfg: Config, buffer: Bytes, bytes: Bytes): (Bytes, Decoded<Message>) {
    if |buffer| + |bytes| > cfg.maxBuffer then ([], Err(BufferTooLarge))
    else ([], DecodeFramePrefix(rt, buffer + bytes, cfg.maxMessage))
  }

  /** How `push_bounded_prefix` deals with the bytes. */
  datatype Route = Refuse(error: DecodeError, keep: bool) | Whole | Cut(take: nat)

  function RouteOf(cfg: Config, buffer: Bytes, bytes: Bytes, limit: nat): (r: Route)
    ensures r.Cut? ==> r.take <= |bytes|
  {
    if limit < 16 || limit > cfg.maxBuffer then Refuse(BufferTooLarge, false)
    else
      match NextFrameLength(cfg.maxMessage, buffer, bytes)
      case Err(e) => Refuse(e, true)
      case Ok(None) => Whole
      case Ok(Some(length)) =>
        if length <= limit || |buffer| + |bytes| < limit then Whole
        else Cut(Min(if limit > |buffer| then limit - |buffer| else 0, |bytes|))
  }

  function PushBounded(rt: Runtime, cfg: Config, buffer: Bytes, bytes: Bytes, limit: nat): Pushed {
    match RouteOf(cfg, buffer, bytes, limit)
    case Refuse(e, keep) => (if keep then buffer else [], Err(e))
    case Whole => Push(rt, cfg, buffer, bytes)
    case Cut(take) =>
      var (rest, r) := PushTruncated(rt, cfg, buffer, bytes[..take]);
      (rest, if r.Ok? then Ok([r.value]) else Err(r.error))
  }

  // ---------------------------------------------------------------- the object

  class StreamDecoder {
    const rt: Runtime
    const config: Config
    var buffer: Bytes

    constructor (rt: Runtime, config: Config)
      ensures this.rt == rt && this.config == config && buffer == []
    {
      this.rt := rt;
      this.config := config;
      buffer := [];
    }

    method PushBytes(bytes: Bytes) returns (r: Decoded<seq<Message>>)
      modifies this
      ensures (buffer, r) == Push(rt, config, old(buffer), bytes)
    {
      hide DecodeFrame, I32At;
      if |buffer| + |bytes| > config.maxBuffer {
        buffer := [];
        return Err(BufferTooLarge);
      }
      buffer := buffer + bytes;
      ghost var all := Drain(rt, config.maxMessage, buffer);
      var decoded: seq<Message> := [];
      PrependNone(all);
      while true
        invariant all == PrependAll(decoded, Drain(rt, config.maxMessage, buffer))
        decreases |buffer|
      {
        if |buffer| < 4 { break; }
        var length := I32At(buffer, 0);
        if length < 16 {
          buffer := [];
          return Err(InvalidFrameLength(length));
        }
        if length > config.maxMessage {
          buffer := [];
          return Err(FrameTooLarge);
        }
        if |buffer| < length { break; }
        var frame := buffer[..length];
        buffer := buffer[length..];
        var message := DecodeFrame(rt, frame, config.maxMessage);
        if message.Err? { return Err(message.error); }
        PrependMore(decoded, message.value, Drain(rt, config.maxMessage, buffer));
        decoded := decoded + [message.value];
      }
      assert decoded + [] == decoded;
      r := Ok(decoded);
    }

    method PushTruncatedBytes(bytes: Bytes) returns (r: Decoded<Message>)
      modifies this
      ensures (buffer, r) == PushTruncated(rt, config, old(buffer), bytes)
    {
      if |buffer| + |bytes| > config.maxBuffer {
        buffer := [];
        return Err(BufferTooLarge);
      }
      buffer := buffer + bytes;
      r := DecodeFramePrefix(rt, buffer, config.maxMessage);
      buffer := [];
    }

    method PushBoundedPrefix(bytes: Bytes, limit: nat) returns (r: Decoded<seq<Message>>)
      modifies this
      ensures (buffer, r) == PushBounded(rt, config, old(buffer), bytes, limit)
    {
      hide DecodeFramePrefix, Drain, I32At;
      if limit < 16 || limit > config.maxBuffer {
        buffer := [];
        return Err(BufferTooLarge);
      }
      var next := NextFrameLength(config.maxMessage, buffer, bytes);
      if next.Err? { return Err(next.error); }
      if next.value.None? || next.value.value <= limit || |buffer| + |bytes| < limit {
        r := PushBytes(bytes);
        return;
      }
      var needed := if limit > |buffer| then limit - |buffer| else 0;
      var message := PushTruncatedBytes(bytes[..Min(needed, |bytes|)]);
      r := if message.Ok? then Ok([message.value]) else Err(message.error);
    }
  }

  function PrependAll(messages: seq<Message>, d: Drained): Drained {
    d.(messages := messages + d.messages)
  }

  lemma PrependNone(d: Drained)
    ensures PrependAll([], d) == d
  {
    assert [] + d.messages == d.messages;
  }

  lemma PrependMore(messages: seq<Message>, m: Message, d: Drained)
    ensures PrependAll(messages, Prepend(m, d)) == PrependAll(messages + [m], d)
  {
    assert messages + ([m] + d.messages) == (messages + [m]) + d.messages;
  }

  lemma PrependFirst(m: Message, messages: seq<Message>, d: Drained)
    ensures Prepend(m, PrependAll(messages, d)) == PrependAll([m] + messages, d)
  {
    assert [m] + (messages + d.messages) == ([m] + messages) + d.messages;
  }

  // ---------------------------------------------------------------- what a pass leaves

  /** A pass that ends well leaves an unfinished frame, and only then finds nothing. */
  lemma {:induction false} DrainRest(rt: Runtime, max: nat, buffer: Bytes)
    ensures Drain(rt, max, buffer).error.None? ==> Unfinished(max, Drain(rt, max, buffer).rest)
    ensures Unfinished(max, buffer) ==> Drain(rt, max, buffer) == Drained([], buffer, None)
    decreases |buffer|
  {
    hide DecodeFrame, I32At;
    if |buffer| >= 4 && 16 <= I32At(buffer, 0) <= max && I32At(buffer, 0) <= |buffer| {
      DrainRest(rt, max, buffer[I32At(buffer, 0)..]);
    }
  }

  /** Draining in two goes is draining at once: what the first pass leaves, and only
      that, has to be kept. */
  lemma {:induction false} DrainSplit(rt: Runtime, max: nat, a: Bytes, b: Bytes)
    ensures var first := Drain(rt, max, a);
            var all := Drain(rt, max, a + b);
            && (first.error.None? ==> all == PrependAll(first.messages, Drain(rt, max, first.rest + b)))
            && (first.error.Some? ==> all.error == first.error && all.messages == first.messages)
    decreases |a|
  {
    hide DecodeFrame, I32At, Drain;
    PrependNone(Drain(rt, max, a + b));
    if Unfinished(max, a) {
      DrainRest(rt, max, a);
    } else {
      SameHeader(a, b);
      DrainOne(rt, max, a);
      DrainOne(rt, max, a + b);
      var length := I32At(a, 0);
      if 16 <= length <= max {
        assert (a + b)[..length] == a[..length];
        assert (a + b)[length..] == a[length..] + b;
        var m := DecodeFrame(rt, a[..length], max);
        if m.Ok? {
          var rest := Drain(rt, max, a[length..]);
          DrainSplit(rt, max, a[length..], b);
          PrependFirst(m.value, rest.messages, Drain(rt, max, rest.rest + b));
        }
      }
    }
  }

  /** One round of the loop. */
  lemma DrainOne(rt: Runtime, max: nat, buffer: Bytes)
    requires !Unfinished(max, buffer)
    ensures var length := I32At(buffer, 0);
            && (length < 16 ==> Drain(rt, max, buffer) == Drained([], [], Some(InvalidFrameLength(length))))
            && (length >= 16 && length > max ==> Drain(rt, max, buffer) == Drained([], [], Some(FrameTooLarge)))
            && (16 <= length <= max ==>
                  var m := DecodeFrame(rt, buffer[..length], max);
                  Drain(rt, max, buffer) ==
                  if m.Ok? then Prepend(m.value, Drain(rt, max, buffer[length..]))
                  else Drained([], buffer[length..], Some(m.error)))
  {
    hide DecodeFrame, I32At;
  }

  lemma SameHeader(a: Bytes, b: Bytes)
    requires |a| >= 4
    ensures I32At(a + b, 0) == I32At(a, 0)
  {
  }

  // ---------------------------------------------------------------- beginnings of frames

  /** Some frame of legal length has these bytes and more. */
  ghost predicate BeginsFrame(max: nat, b: Bytes) {
    exists f :: b <= f && |b| < |f| && LegalFrame(max, f)
  }

  predicate LegalFrame(max: nat, f: Bytes) {
    16 <= |f| <= max && I32At(f, 0) == |f|
  }

  /** The header of the least legal length that begins with these bytes. */
  function LeastHeader(b: Bytes): (header: Bytes)
    requires |b| < 4
    ensures |header| == 4 && b <= header
  {
    if |b| == 0 then [16, 0, 0, 0]
    else if |b| == 1 then b + [if b[0] >= 16 then 0 else 1, 0, 0]
    else if |b| == 2 then b + [if b[0] >= 16 || b[1] > 0 then 0 else 1, 0]
    else b + [if b[0] >= 16 || b[1] > 0 || b[2] > 0 then 0 else 1]
  }

  function LeastLength(b: Bytes): int
    requires |b| < 4
  {
    I32At(LeastHeader(b), 0)
  }

  /** What an unfinished buffer says of the frame it may begin: with its header complete,
      it begins a legal frame; with less, exactly when a legal length fits the limit. */
  lemma UnfinishedBegins(max: nat, b: Bytes)
    requires Unfinished(max, b)
    ensures BeginsFrame(max, b) <==> |b| >= 4 || LeastLength(b) <= max
  {
    if |b| >= 4 {
      Completes(max, b, I32At(b, 0));
    } else {
      LeastLegal(b);
      if LeastLength(b) <= max {
        var header := LeastHeader(b);
        Completes(max, header, LeastLength(b));
        var f :| header <= f && |header| < |f| && LegalFrame(max, f);
        assert b <= f;
      }
      forall f | b <= f && |b| < |f| && LegalFrame(max, f) ensures LeastLength(b) <= max {
        LeastIsLeast(b, f);
      }
    }
  }

  lemma Completes(max: nat, b: Bytes, length: nat)
    requires 4 <= |b| < length && 16 <= length <= max && I32At(b, 0) == length
    ensures BeginsFrame(max, b)
  {
    var f := b + seq(length - |b|, _ => 0);
    SameHeader(b, seq(length - |b|, _ => 0));
    assert LegalFrame(max, f);
  }

  lemma LeastLegal(b: Bytes)
    requires |b| < 4
    ensures LeastLength(b) >= 16
  {
    var h := LeastHeader(b);
    assert h[3] <= 1 && (h[0] >= 16 || h[1] > 0 || h[2] > 0 || h[3] > 0);
  }

  lemma LeastIsLeast(b: Bytes, f: Bytes)
    requires |b| < 4 <= |f| && b <= f && I32At(f, 0) >= 16
    ensures LeastLength(b) <= I32At(f, 0)
  {
    assert forall i :: 0 <= i < |b| ==> b[i] == f[i];
  }

  /** Three bytes that no legal header begins with, under a small limit. */
  lemma BeginsNothing(max: nat)
    requires max < 0xFF_FFFF
    ensures var b: Bytes := [0xFF, 0xFF, 0xFF]; Unfinished(max, b) && !BeginsFrame(max, b)
  {
    var b: Bytes := [0xFF, 0xFF, 0xFF];
    UnfinishedBegins(max, b);
  }

  // ---------------------------------------------------------------- runs of pushes

  /** Pushing chunk after chunk until one push fails. */
  function Feed(rt: Runtime, cfg: Config, buffer: Bytes, chunks: seq<Bytes>): Drained
    decreases |chunks|
  {
    if chunks == [] then Drained([], buffer, None)
    else
      var (rest, r) := Push(rt, cfg, buffer, chunks[0]);
      match r
      case Err(e) => Drained([], rest, Some(e))
      case Ok(messages) => PrependAll(messages, Feed(rt, cfg, rest, chunks[1..]))
  }

  /** No push of the run overflows the buffer limit. */
  predicate NoOverflow(rt: Runtime, cfg: Config, buffer: Bytes, chunks: seq<Bytes>)
    decreases |chunks|
  {
    chunks != [] ==>
      && |buffer| + |chunks[0]| <= cfg.maxBuffer
      && var first := Drain(rt, cfg.maxMessage, buffer + chunks[0]);
      && (first.error.None? ==> NoOverflow(rt, cfg, first.rest, chunks[1..]))
  }

  /** Fragmentation independence: however the stream is cut into chunks, the pushes
      together find the error of the whole stream or none, and without an error exactly
      its messages, in order, with exactly its unfinished tail left over. With an error,
      exactly the messages complete before the chunk that brings the error come out. */
  lemma {:induction false} FragmentationIndependent(rt: Runtime, cfg: Config, buffer: Bytes, chunks: seq<Bytes>)
    requires Unfinished(cfg.maxMessage, buffer) && NoOverflow(rt, cfg, buffer, chunks)
    ensures var fed := Feed(rt, cfg, buffer, chunks);
            var all := Drain(rt, cfg.maxMessage, buffer + Concat(chunks));
            && fed.error == all.error
            && (all.error.None? ==> fed == all)
            && fed.messages <= all.messages
            && (all.error.Some? ==> exists k: nat :: YieldsUpTo(rt, cfg.maxMessage, buffer, chunks, k, fed.messages))
    decreases |chunks|
  {
    hide Drain;
    var max := cfg.maxMessage;
    if chunks == [] {
      assert buffer + Concat(chunks) == buffer;
      DrainRest(rt, max, buffer);
    } else {
      var first := Drain(rt, max, buffer + chunks[0]);
      assert buffer + Concat(chunks) == (buffer + chunks[0]) + Concat(chunks[1..]);
      DrainSplit(rt, max, buffer + chunks[0], Concat(chunks[1..]));
      if first.error.None? {
        DrainRest(rt, max, buffer + chunks[0]);
        FragmentationIndependent(rt, cfg, first.rest, chunks[1..]);
        if Feed(rt, cfg, first.rest, chunks[1..]).error.Some? {
          var rest := Feed(rt, cfg, first.rest, chunks[1..]);
          var k: nat :| YieldsUpTo(rt, max, first.rest, chunks[1..], k, rest.messages);
          DrainFirst(rt, max, buffer, chunks, k);
          DrainFirst(rt, max, buffer, chunks, k + 1);
          assert YieldsUpTo(rt, max, buffer, chunks, k + 1, first.messages + rest.messages);
        }
      } else {
        FailsAtOnce(rt, max, buffer, chunks);
        assert YieldsUpTo(rt, max, buffer, chunks, 0, []);
      }
    }
  }

  /** The first `k` chunks bring no error and the next one does. */
  ghost predicate FailsAt(rt: Runtime, max: nat, buffer: Bytes, chunks: seq<Bytes>, k: nat) {
    && k < |chunks|
    && Drain(rt, max, buffer + Concat(chunks[..k])).error.None?
    && Drain(rt, max, buffer + Concat(chunks[..k + 1])).error.Some?
  }

  /** ... and these are the messages complete before it. */
  ghost predicate YieldsUpTo(
    rt: Runtime, max: nat, buffer: Bytes, chunks: seq<Bytes>, k: nat, messages: seq<Message>
  ) {
    FailsAt(rt, max, buffer, chunks, k) && messages == Drain(rt, max, buffer + Concat(chunks[..k])).messages
  }

  /** Draining one chunk more, the first chunk apart. */
  lemma DrainFirst(rt: Runtime, max: nat, buffer: Bytes, chunks: seq<Bytes>, k: nat)
    requires k < |chunks| && Drain(rt, max, buffer + chunks[0]).error.None?
    ensures var first := Drain(rt, max, buffer + chunks[0]);
            Drain(rt, max, buffer + Concat(chunks[..k + 1])) ==
            PrependAll(first.messages, Drain(rt, max, first.rest + Concat(chunks[1..][..k])))
  {
    hide Drain;
    assert chunks[..k + 1][1..] == chunks[1..][..k];
    assert buffer + Concat(chunks[..k + 1]) == (buffer + chunks[0]) + Concat(chunks[1..][..k]);
    DrainSplit(rt, max, buffer + chunks[0], Concat(chunks[1..][..k]));
  }

  lemma FailsAtOnce(rt: Runtime, max: nat, buffer: Bytes, chunks: seq<Bytes>)
    requires chunks != [] && Unfinished(max, buffer) && Drain(rt, max, buffer + chunks[0]).error.Some?
    ensures FailsAt(rt, max, buffer, chunks, 0) && Drain(rt, max, buffer + Concat(chunks[..0])).messages == []
  {
    hide Drain;
    assert chunks[..1][1..] == [] && chunks[..0] == [];
    assert buffer + Concat(chunks[..0]) == buffer && buffer + Concat(chunks[..1]) == buffer + chunks[0];
    DrainRest(rt, max, buffer);
  }

  /** The chunk that fails is determined by the stream and its division alone. */
  lemma FailsOnce(rt: Runtime, max: nat, buffer: Bytes, chunks: seq<Bytes>, j: nat, k: nat)
    requires FailsAt(rt, max, buffer, chunks, j) && FailsAt(rt, max, buffer, chunks, k)
    ensures j == k
  {
    if j < k {
      ErrorStays(rt, max, buffer, chunks, j + 1, k);
    } else if k < j {
      ErrorStays(rt, max, buffer, chunks, k + 1, j);
    }
  }

  lemma ErrorStays(rt: Runtime, max: nat, buffer: Bytes, chunks: seq<Bytes>, j: nat, k: nat)
    requires j <= k <= |chunks| && Drain(rt, max, buffer + Concat(chunks[..j])).error.Some?
    ensures Drain(rt, max, buffer + Concat(chunks[..k])).error.Some?
  {
    hide Drain;
    assert chunks[..k] == chunks[..j] + chunks[j..k];
    ConcatSplit(chunks[..j], chunks[j..k]);
    assert buffer + Concat(chunks[..k]) == (buffer + Concat(chunks[..j])) + Concat(chunks[j..k]);
    DrainSplit(rt, max, buffer + Concat(chunks[..j]), Concat(chunks[j..k]));
  }

  lemma {:induction false} ConcatSplit(xs: seq<Bytes>, ys: seq<Bytes>)
    ensures Concat(xs + ys) == Concat(xs) + Concat(ys)
  {
    if xs == [] {
      assert xs + ys == ys;
    } else {
      ConcatSplit(xs[1..], ys);
      assert (xs + ys)[1..] == xs[1..] + ys;
      Associates(xs[0], Concat(xs[1..]), Concat(ys));
    }
  }

  lemma Associates(a: Bytes, b: Bytes, c: Bytes)
    ensures (a + b) + c == a + (b + c)
  {
  }

  /** A frame that decodes, followed in the same chunk by four zero bytes, is lost; sent as
      a chunk of its own it is not. */
  lemma MessageLost(rt: Runtime, cfg: Config, frame: Bytes)
    requires DecodeFrame(rt, frame, cfg.maxMessage).Ok? && |frame| + 4 <= cfg.maxBuffer
    ensures var bad: Bytes := [0, 0, 0, 0];
            var m := DecodeFrame(rt, frame, cfg.maxMessage).value;
            && Drain(rt, cfg.maxMessage, frame + bad) == Drained([m], [], Some(InvalidFrameLength(0)))
            && Feed(rt, cfg, [], [frame + bad]) == Drained([], [], Some(InvalidFrameLength(0)))
            && Feed(rt, cfg, [], [frame, bad]) == Drained([m], [], Some(InvalidFrameLength(0)))
  {
    hide DecodeFrame, Drain, Feed;
    var bad: Bytes := [0, 0, 0, 0];
    var max := cfg.maxMessage;
    ZeroesFail(rt, max);
    FrameDrains(rt, max, frame, bad);
    FrameDrains(rt, max, frame, []);
    assert frame + [] == frame && [] + (frame + bad) == frame + bad && [] + frame == frame && [] + bad == bad;
    FeedOne(rt, cfg, frame + bad, []);
    FeedOne(rt, cfg, frame, [bad]);
    FeedOne(rt, cfg, bad, []);
    assert [frame] + [bad] == [frame, bad] && [bad] + [] == [bad] && [frame + bad] + [] == [frame + bad];
  }

  lemma ZeroesFail(rt: Runtime, max: nat)
    ensures Drain(rt, max, [0, 0, 0, 0]) == Drained([], [], Some(InvalidFrameLength(0)))
    ensures Drain(rt, max, []) == Drained([], [], None)
  {
    var bad: Bytes := [0, 0, 0, 0];
    assert I32At(bad, 0) == 0;
  }

  lemma FrameDrains(rt: Runtime, max: nat, frame: Bytes, rest: Bytes)
    requires DecodeFrame(rt, frame, max).Ok?
    ensures Drain(rt, max, frame + rest) == Prepend(DecodeFrame(rt, frame, max).value, Drain(rt, max, rest))
  {
    hide DecodeFrame;
    DecodableFrame(rt, frame, max);
    SameHeader(frame, rest);
    assert (frame + rest)[..|frame|] == frame && (frame + rest)[|frame|..] == rest;
  }

  /** The first push of a run from an empty buffer. */
  lemma FeedOne(rt: Runtime, cfg: Config, chunk: Bytes, rest: seq<Bytes>)
    requires |chunk| <= cfg.maxBuffer
    ensures var first := Drain(rt, cfg.maxMessage, chunk);
            Feed(rt, cfg, [], [chunk] + rest) ==
            if first.error.Some? then Drained([], first.rest, first.error)
            else PrependAll(first.messages, Feed(rt, cfg, first.rest, rest))
  {
    hide Drain;
    assert ([chunk] + rest)[1..] == rest && [] + chunk == chunk;
  }

  /** The messages of frames that decode. */
  function Messages(rt: Runtime, max: nat, frames: seq<Bytes>): (ms: seq<Message>)
    requires forall f | f in frames :: DecodeFrame(rt, f, max).Ok?
    ensures |ms| == |frames|
    ensures forall i :: 0 <= i < |frames| ==> DecodeFrame(rt, frames[i], max) == Ok(ms[i])
  {
    seq(|frames|, i requires 0 <= i < |frames| => DecodeFrame(rt, frames[i], max).value)
  }

  lemma DecodableFrame(rt: Runtime, f: Bytes, max: nat)
    requires DecodeFrame(rt, f, max).Ok?
    ensures 16 <= |f| <= max && I32At(f, 0) == |f|
  {
    hide DecodePlain, DecodeCompressed, I32At;
  }

  lemma {:induction false} DrainFrames(rt: Runtime, max: nat, frames: seq<Bytes>, tail: Bytes)
    requires forall f | f in frames :: DecodeFrame(rt, f, max).Ok?
    requires Unfinished(max, tail)
    ensures Drain(rt, max, Concat(frames) + tail) == Drained(Messages(rt, max, frames), tail, None)
    decreases |frames|
  {
    hide DecodeFrame, I32At;
    if frames == [] {
      assert Concat(frames) + tail == tail;
      DrainRest(rt, max, tail);
    } else {
      var f, all := frames[0], Concat(frames) + tail;
      DecodableFrame(rt, f, max);
      assert all == f + (Concat(frames[1..]) + tail);
      SameHeader(f, Concat(frames[1..]) + tail);
      assert all[..|f|] == f && all[|f|..] == Concat(frames[1..]) + tail;
      DrainFrames(rt, max, frames[1..], tail);
      assert Messages(rt, max, frames) == [DecodeFrame(rt, f, max).value] + Messages(rt, max, frames[1..]);
    }
  }

  /** Decodable frames, in any fragmentation that fits the buffer, come out one by one. */
  lemma FramesArrive(rt: Runtime, cfg: Config, frames: seq<Bytes>, tail: Bytes, chunks: seq<Bytes>)
    requires forall f | f in frames :: DecodeFrame(rt, f, cfg.maxMessage).Ok?
    requires Unfinished(cfg.maxMessage, tail)
    requires Concat(chunks) == Concat(frames) + tail && NoOverflow(rt, cfg, [], chunks)
    ensures Feed(rt, cfg, [], chunks) == Drained(Messages(rt, cfg.maxMessage, frames), tail, None)
  {
    hide Drain, DecodeFrame;
    FragmentationIndependent(rt, cfg, [], chunks);
    DrainFrames(rt, cfg.maxMessage, frames, tail);
    assert [] + Concat(chunks) == Concat(chunks);
  }

  /** Chunks no larger than the slack between the two limits never overflow. */
  lemma {:induction false} SmallChunksFit(rt: Runtime, cfg: Config, buffer: Bytes, chunks: seq<Bytes>)
    requires Unfinished(cfg.maxMessage, buffer) && cfg.maxMessage >= 4
    requires forall c | c in chunks :: |c| + cfg.maxMessage <= cfg.maxBuffer + 1
    ensures NoOverflow(rt, cfg, buffer, chunks)
    decreases |chunks|
  {
    hide Drain;
    if chunks == [] {
    } else {
      assert chunks[0] in chunks;
      DrainRest(rt, cfg.maxMessage, buffer + chunks[0]);
      var first := Drain(rt, cfg.maxMessage, buffer + chunks[0]);
      if first.error.None? { SmallChunksFit(rt, cfg, first.rest, chunks[1..]); }
    }
  }

  // ---------------------------------------------------------------- bounded retention

  /** The inputs `push_bounded_prefix` hands to a frame decoder. */
  function BoundedInputs(rt: Runtime, cfg: Config, buffer: Bytes, bytes: Bytes, limit: nat): seq<Bytes> {
    match RouteOf(cfg, buffer, bytes, limit)
    case Refuse(_, _) => []
    case Whole =>
      if |buffer| + |bytes| > cfg.maxBuffer then [] else DecodeInputs(rt, cfg.maxMessage, buffer + bytes)
    case Cut(take) =>
      if |buffer| + take > cfg.maxBuffer then [] else [buffer + bytes[..take]]
  }

  lemma {:induction false} InputsWithin(rt: Runtime, max: nat, buffer: Bytes)
    ensures forall f | f in DecodeInputs(rt, max, buffer) :: |f| <= |buffer|
    decreases |buffer|
  {
    hide DecodeFrame, I32At;
    if |buffer| >= 4 && 16 <= I32At(buffer, 0) <= max && I32At(buffer, 0) <= |buffer| {
      InputsWithin(rt, max, buffer[I32At(buffer, 0)..]);
    }
  }

  lemma {:induction false} RestWithin(rt: Runtime, max: nat, buffer: Bytes)
    ensures |Drain(rt, max, buffer).rest| <= |buffer|
    ensures Drain(rt, max, buffer).error != Some(BufferTooLarge)
    decreases |buffer|
  {
    hide DecodeFrame, I32At;
    if |buffer| >= 4 && 16 <= I32At(buffer, 0) <= max && I32At(buffer, 0) <= |buffer| {
      var length := I32At(buffer, 0);
      FrameErrors(rt, buffer[..length], max);
      RestWithin(rt, max, buffer[length..]);
    }
  }

  /** A bounded push in words: while the header is not there, or the frame is no longer than
      the limit, or the limit is not reached, it is a push; from there on a longer frame is
      decoded from its first `limit` bytes and the buffer emptied. */
  lemma BoundedPushMeans(rt: Runtime, cfg: Config, buffer: Bytes, bytes: Bytes, limit: nat)
    requires 16 <= limit <= cfg.maxBuffer && |buffer| <= limit
    ensures var all := buffer + bytes;
            && (|all| < 4 ==> PushBounded(rt, cfg, buffer, bytes, limit) == Push(rt, cfg, buffer, bytes))
            && (|all| >= 4 && 16 <= I32At(all, 0) <= cfg.maxMessage ==>
                  if I32At(all, 0) <= limit || |all| < limit
                  then PushBounded(rt, cfg, buffer, bytes, limit) == Push(rt, cfg, buffer, bytes)
                  else
                    var decoded := DecodeFramePrefix(rt, all[..limit], cfg.maxMessage);
                    PushBounded(rt, cfg, buffer, bytes, limit) ==
                    ([], if decoded.Ok? then Ok([decoded.value]) else Err(decoded.error)))
  {
    hide DecodeFramePrefix, Drain, I32At;
    var all := buffer + bytes;
    if |all| >= limit {
      assert buffer + bytes[..limit - |buffer|] == all[..limit];
    }
  }

  /** Bounded retention: from an unfinished buffer of under `limit` bytes and a chunk of
      at most `limit` bytes, the buffer can never be reported too large, what is retained
      is again an unfinished frame of under `limit` bytes, and no frame decoder is given
      more than `limit` bytes. */
  lemma BoundedRetention(rt: Runtime, cfg: Config, buffer: Bytes, bytes: Bytes, limit: nat)
    requires 16 <= limit && cfg.maxBuffer == 2 * limit
    requires Unfinished(cfg.maxMessage, buffer) && |buffer| < limit && |bytes| <= limit
    ensures var (rest, r) := PushBounded(rt, cfg, buffer, bytes, limit);
            && (r.Err? ==> r.error != BufferTooLarge)
            && (r.Ok? ==> Unfinished(cfg.maxMessage, rest) && |rest| < limit)
    ensures forall f | f in BoundedInputs(rt, cfg, buffer, bytes, limit) :: |f| <= limit
  {
    hide Drain, DecodeInputs, DecodeFramePrefix, I32At, Unfinished;
    var max, all := cfg.maxMessage, buffer + bytes;
    var route := RouteOf(cfg, buffer, bytes, limit);
    DrainRest(rt, max, all);
    RestWithin(rt, max, all);
    InputsWithin(rt, max, all);
    if route.Whole? && |all| >= limit {
      FirstFrameSmall(rt, cfg, buffer, bytes, limit);
    }
    if route.Cut? { FramePrefixErrors(rt, buffer + bytes[..route.take], max); EmptyUnfinished(max); }
  }

  lemma EmptyUnfinished(max: nat)
    ensures Unfinished(max, [])
  {
  }

  /** The case that matters: the chunk completes a small frame and starts more. */
  lemma FirstFrameSmall(rt: Runtime, cfg: Config, buffer: Bytes, bytes: Bytes, limit: nat)
    requires 16 <= limit && Unfinished(cfg.maxMessage, buffer) && |buffer| < limit && |bytes| <= limit
    requires RouteOf(cfg, buffer, bytes, limit).Whole? && |buffer| + |bytes| >= limit
    ensures |Drain(rt, cfg.maxMessage, buffer + bytes).rest| < limit
    ensures forall f | f in DecodeInputs(rt, cfg.maxMessage, buffer + bytes) :: |f| <= limit
  {
    hide DecodeFrame, I32At;
    var max, all := cfg.maxMessage, buffer + bytes;
    var length := I32At(all, 0);
    if |buffer| >= 4 { SameHeader(buffer, bytes); }
    assert |buffer| < length <= limit;
    var rest := all[length..];
    RestWithin(rt, max, rest);
    InputsWithin(rt, max, rest);
  }
}
