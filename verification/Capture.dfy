/** The Observer's stream table: one reassembly buffer for each direction of each
    connection (`process_io_chunk`, crates/observer/src/lib.rs). */
module Capture {
  import opened Primitives
  import opened Bson
  import opened Wire
  import opened ErrorKinds
  import opened Streams
  import opened Schema
  import opened Processor

  const MAX_CAPTURE: nat := 1024

  datatype StreamKey = StreamKey(conn: ConnKey, direction: byte)

  type Table = map<StreamKey, Bytes>

  /** The fixed data area of the kernel's record. */
  type DataArea = d: Bytes | |d| == MAX_CAPTURE witness seq(MAX_CAPTURE, _ => 0)

  /** What the kernel hands over: one copied chunk of a socket's data. */
  datatype Chunk = Chunk(
    conn: ConnKey, direction: byte, now: nat, bytes: nat, capturedLen: nat, source: byte, data: DataArea
  )

  predicate IsTruncated(c: Chunk) { c.bytes > c.capturedLen }

  function StreamConfig(cfg: ProcessorConfig): Config { Config(cfg.maxMessage, 2 * MAX_CAPTURE) }

  function BufferOf(streams: Table, k: StreamKey): Bytes {
    if k in streams then streams[k] else []
  }

  /** The stream table after a chunk, and the messages or the error it yields. */
  function OnChunk(
    cfg: ProcessorConfig, streams: Table, c: Chunk
  ): (Table, Decoded<seq<Message>>)
  {
    var captured := Min(c.capturedLen, MAX_CAPTURE);
    if captured == 0 then (streams, Ok([]))
    else
      var k := StreamKey(c.conn, c.direction);
      var buffer := BufferOf(streams, k);
      if IsTruncated(c) then
        var take := Min(captured, Saturating(MAX_CAPTURE, |buffer|));
        var (_, r) := PushTruncated(cfg.rt, StreamConfig(cfg), buffer, c.data[..take]);
        (streams - {k}, if r.Ok? then Ok([r.value]) else Err(r.error))
      else
        var (rest, r) := PushBounded(cfg.rt, StreamConfig(cfg), buffer, c.data[..captured], MAX_CAPTURE);
        (if r.Ok? then streams[k := rest] else streams - {k}, r)
  }

  /** The inputs a chunk hands to the frame decoders. */
  function ChunkInputs(cfg: ProcessorConfig, streams: Table, c: Chunk): seq<Bytes>
  {
    var captured := Min(c.capturedLen, MAX_CAPTURE);
    var buffer := BufferOf(streams, StreamKey(c.conn, c.direction));
    if captured == 0 then []
    else if IsTruncated(c) then
      var take := Min(captured, Saturating(MAX_CAPTURE, |buffer|));
      if |buffer| + take > 2 * MAX_CAPTURE then [] else [buffer + c.data[..take]]
    else BoundedInputs(cfg.rt, StreamConfig(cfg), buffer, c.data[..captured], MAX_CAPTURE)
  }

  function ForgetConnection(streams: Table, conn: ConnKey): Table {
    map k | k in streams && k.conn != conn :: streams[k]
  }

  function ForgetProcess(streams: Table, tgid: nat): Table {
    map k | k in streams && k.conn.tgid != tgid :: streams[k]
  }

  // ---------------------------------------------------------------- runs

  /** What changes the table. */
  datatype Happening = Copied(chunk: Chunk) | Closed(conn: ConnKey) | Exited(tgid: nat)

  function TableAfter(cfg: ProcessorConfig, streams: Table, x: Happening): Table {
    match x
    case Copied(c) => OnChunk(cfg, streams, c).0
    case Closed(conn) => ForgetConnection(streams, conn)
    case Exited(tgid) => ForgetProcess(streams, tgid)
  }

  function TableOf(cfg: ProcessorConfig, h: seq<Happening>): Table {
    if h == [] then map[] else TableAfter(cfg, TableOf(cfg, h[..|h| - 1]), h[|h| - 1])
  }

  /** Every retained buffer is an unfinished frame of under 1024 bytes. */
  ghost predicate Bounded(cfg: ProcessorConfig, streams: Table) {
    forall k | k in streams :: Unfinished(cfg.maxMessage, streams[k]) && |streams[k]| < 1024
  }

  /** What a chunk does, in figures. Nothing captured, nothing done. A chunk of which less was
      captured than was sent ends its stream: what the stream held and the chunk's bytes, up
      to 1024 of them together, are decoded as a prefix. Any other chunk is pushed with a
      limit of 1024, and its stream is forgotten if that fails. Other streams are untouched. */
  lemma ChunkMeans(cfg: ProcessorConfig, streams: Table, c: Chunk)
    requires Bounded(cfg, streams)
    ensures var k := StreamKey(c.conn, c.direction);
            var held := if k in streams then streams[k] else [];
            var captured := c.data[..if c.capturedLen < 1024 then c.capturedLen else 1024];
            var (after, r) := OnChunk(cfg, streams, c);
            && after - {k} == streams - {k}
            && (c.capturedLen == 0 ==> after == streams && r == Ok([]))
            && (c.capturedLen > 0 && c.bytes > c.capturedLen ==>
                  && k !in after
                  && var all := held + captured;
                     var decoded := DecodeFramePrefix(cfg.rt, if |all| <= 1024 then all else all[..1024], cfg.maxMessage);
                     r == if decoded.Ok? then Ok([decoded.value]) else Err(decoded.error))
            && (c.capturedLen > 0 && c.bytes <= c.capturedLen ==>
                  var (rest, pushed) := PushBounded(cfg.rt, Config(cfg.maxMessage, 2048), held, captured, 1024);
                  && r == pushed && (r.Ok? ==> k in after && after[k] == rest) && (r.Err? ==> k !in after))
  {
    hide DecodeFramePrefix, PushBounded, Unfinished;
    var k := StreamKey(c.conn, c.direction);
    var held := if k in streams then streams[k] else [];
    var captured := c.data[..if c.capturedLen < 1024 then c.capturedLen else 1024];
    if c.capturedLen > 0 && c.bytes > c.capturedLen {
      var take := Min(|captured|, 1024 - |held|);
      assert c.data[..take] == captured[..take];
      var all := held + captured;
      if |all| <= 1024 {
        assert held + captured[..take] == all;
      } else {
        assert held + captured[..take] == all[..1024];
      }
    }
  }

  /** One chunk: no buffer error, no decoder input above `MAX_CAPTURE`, bounds kept. */
  lemma ChunkBounded(cfg: ProcessorConfig, streams: Table, c: Chunk)
    requires Bounded(cfg, streams)
    ensures Bounded(cfg, OnChunk(cfg, streams, c).0)
    ensures OnChunk(cfg, streams, c).1 != Err(BufferTooLarge)
    ensures forall f | f in ChunkInputs(cfg, streams, c) :: |f| <= MAX_CAPTURE
  {
    hide PushBounded, BoundedInputs, DecodeFramePrefix, Unfinished;
    var buffer := BufferOf(streams, StreamKey(c.conn, c.direction));
    EmptyUnfinished(cfg.maxMessage);
    var captured := Min(c.capturedLen, MAX_CAPTURE);
    BoundedRetention(cfg.rt, StreamConfig(cfg), buffer, c.data[..captured], MAX_CAPTURE);
    FramePrefixErrors(cfg.rt, buffer + c.data[..Min(captured, Saturating(MAX_CAPTURE, |buffer|))], cfg.maxMessage);
  }

  /** Bounded retention, over every run of chunks, closes and exits. A retained buffer
      begins one legal frame, unless it is shorter than a header and no legal length with
      those first bytes is within the limit. */
  lemma {:induction false} RetentionBounded(cfg: ProcessorConfig, h: seq<Happening>)
    ensures Bounded(cfg, TableOf(cfg, h))
    ensures forall k | k in TableOf(cfg, h) ::
              var b := TableOf(cfg, h)[k];
              BeginsFrame(cfg.maxMessage, b) <==> |b| >= 4 || LeastLength(b) <= cfg.maxMessage
    ensures h != [] && h[|h| - 1].Copied? ==>
              var before := TableOf(cfg, h[..|h| - 1]);
              var c := h[|h| - 1].chunk;
              && OnChunk(cfg, before, c).1 != Err(BufferTooLarge)
              && (forall f | f in ChunkInputs(cfg, before, c) :: |f| <= 1024)
    decreases |h|
  {
    hide OnChunk, ChunkInputs, Unfinished, BeginsFrame, LeastLength;
    if h == [] {
    } else {
      var init, x := h[..|h| - 1], h[|h| - 1];
      RetentionBounded(cfg, init);
      if x.Copied? { ChunkBounded(cfg, TableOf(cfg, init), x.chunk); }
      forall k | k in TableOf(cfg, h)
        ensures var b := TableOf(cfg, h)[k];
                BeginsFrame(cfg.maxMessage, b) <==> |b| >= 4 || LeastLength(b) <= cfg.maxMessage
      {
        UnfinishedBegins(cfg.maxMessage, TableOf(cfg, h)[k]);
      }
    }
  }
}
