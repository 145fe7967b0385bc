/** MongoDB wire frames: OP_MSG, OP_QUERY, OP_REPLY and OP_COMPRESSED
    (crates/mongo-protocol/src/lib.rs, from `decode_frame` to `command_from_summary`). */
module Wire {
  import opened Primitives
  import opened Bson
  import opened Deletes
  import opened Json
  import opened Summaries

  const OP_REPLY: int := 1
  const OP_QUERY: int := 2004
  const OP_COMPRESSED: int := 2012
  const OP_MSG: int := 2013

  datatype Command = Command(
    name: Bytes,
    database: Option<Bytes>,
    collection: Option<Bytes>,
    mechanism: Option<Bytes>,
    principal: Option<Bytes>,
    speculative: bool,
    deleteScope: Option<DeleteScope>,
    deleteStatements: Option<nat>,
    query: Option<Json>
  )

  datatype Status = Status(
    ok: Option<bool>, code: Option<int>, codeName: Option<Bytes>, affected: Option<int>, authDone: Option<bool>
  )

  datatype Message = Message(
    requestId: int,
    responseTo: int,
    wireBytes: nat,
    flags: nat,
    moreToCome: bool,
    compressed: bool,
    command: Option<Command>,
    status: Option<Status>
  )

  /** What every decoder is told about the frame it stands in. */
  datatype Envelope = Envelope(requestId: int, responseTo: int, wireBytes: nat, compressed: bool)

  // ---------------------------------------------------------------- commands

  predicate HasCollectionArgument(command: Bytes) {
    || command == Ascii("aggregate") || command == Ascii("clonecollectionascapped")
    || command == Ascii("collmod") || command == Ascii("compact") || command == Ascii("converttocapped")
    || command == Ascii("count") || command == Ascii("create") || command == Ascii("createindexes")
    || command == Ascii("delete") || command == Ascii("distinct") || command == Ascii("drop")
    || command == Ascii("dropindexes") || command == Ascii("emptycapped") || command == Ascii("find")
    || command == Ascii("findandmodify") || command == Ascii("geosearch") || command == Ascii("getmore")
    || command == Ascii("insert") || command == Ascii("killcursors") || command == Ascii("listindexes")
    || command == Ascii("mapreduce") || command == Ascii("parallelcollectionscan")
    || command == Ascii("renamecollection") || command == Ascii("update") || command == Ascii("validate")
  }

  predicate HasPrincipalArgument(command: Bytes) {
    command == Ascii("createuser") || command == Ascii("dropuser") || command == Ascii("grantrolestouser")
    || command == Ascii("revokerolesfromuser") || command == Ascii("updateuser") || command == Ascii("usersinfo")
  }

  function CommandOf(s: Summary): Option<Command> {
    var name :- s.firstKey;
    var normalized := Lower(name);
    var isDelete := normalized == Ascii("delete");
    Some(Command(
           name,
           s.database,
           if HasCollectionArgument(normalized) then OrElse(s.firstString, s.collection) else None,
           s.mechanism,
           OrElse(s.principal, if HasPrincipalArgument(normalized) then s.firstString else None),
           s.speculative,
           if isDelete then s.deleteScope else None,
           if isDelete then s.deleteStatements else None,
           s.query))
  }

  function StatusOf(s: Summary): Status {
    Status(s.ok, s.code, s.codeName, s.affected, s.authDone)
  }

  // ---------------------------------------------------------------- OP_MSG

  datatype Sections = Sections(
    summary: Option<Summary>,
    deletes: Option<(Option<DeleteScope>, nat)>,
    sequences: seq<(Bytes, seq<Json>)>
  )

  const NO_SECTIONS := Sections(None, None, [])

  /** A kind-0 section: the first one is summarised, later ones are stepped over. */
  function BodySection(rt: Runtime, payload: Bytes, end: nat, offset: nat, acc: Sections): (r: Decoded<(Sections, nat)>)
    requires end <= |payload|
    ensures r.Ok? ==> offset < r.value.1 <= end
  {
    var length :- ReadI32(payload, offset);
    if length < 5 || offset + length > end then Err(InvalidBson)
    else if acc.summary.Some? then Ok((acc, offset + length))
    else
      var summary :- Summarize(rt, payload[offset..offset + length], true);
      Ok((acc.(summary := Some(summary)), offset + length))
  }

  /** A kind-1 section: an identifier and a run of documents. */
  function SequenceSection(
    rt: Runtime, payload: Bytes, end: nat, offset: nat, acc: Sections
  ): (r: Decoded<(Sections, nat)>)
    requires end <= |payload|
    ensures r.Ok? ==> offset < r.value.1 <= end
  {
    var size :- ReadI32(payload, offset);
    if size < 5 || offset + size > end then Err(InvalidBson)
    else
      var sectionEnd := offset + size;
      var (identifier, start) :- ReadCString(rt, payload, offset + 4);
      if start > sectionEnd then Err(InvalidBson)
      else
        var acc :- AddSequence(rt, identifier, payload[start..sectionEnd], acc);
        Ok((acc, sectionEnd))
  }

  function AddSequence(rt: Runtime, identifier: Bytes, documents: Bytes, acc: Sections): Decoded<Sections> {
    var deletes :-
      if identifier == Ascii("deletes") then
        var scan :- SequenceFrom(rt, documents, 0, NOTHING);
        Ok(Some(scan))
      else Ok(acc.deletes);
    var acc := acc.(deletes := deletes);
    match SequenceToJson(rt, documents, 0, [])
    case Ok(values) => Ok(acc.(sequences := acc.sequences + [(identifier, values)]))
    case Err(_) => Ok(acc)
  }

  function SectionsFrom(rt: Runtime, payload: Bytes, end: nat, offset: nat, acc: Sections): Decoded<Sections>
    requires end <= |payload|
    decreases end - offset
  {
    if offset >= end then Ok(acc)
    else
      var kind := payload[offset];
      var (acc, next) :-
        if kind == 0 then BodySection(rt, payload, end, offset + 1, acc)
        else if kind == 1 then SequenceSection(rt, payload, end, offset + 1, acc)
        else Err(UnsupportedSection(kind));
      SectionsFrom(rt, payload, end, next, acc)
  }

  function InsertAll(fields: map<Bytes, Json>, sequences: seq<(Bytes, seq<Json>)>): map<Bytes, Json>
    decreases |sequences|
  {
    if sequences == [] then fields
    else InsertAll(fields[sequences[0].0 := List(sequences[0].1)], sequences[1..])
  }

  /** The summary with what the document sequences add to it. */
  function Merged(s: Summary, sections: Sections): Summary {
    var s := if sections.deletes.Some?
             then s.(deleteScope := sections.deletes.value.0, deleteStatements := Some(sections.deletes.value.1))
             else s;
    if s.firstKey.Some? && CapturesQuery(Lower(s.firstKey.value)) && s.query.Some? && s.query.value.Object?
    then s.(query := Some(Object(InsertAll(s.query.value.fields, sections.sequences))))
    else s
  }

  function OpMsgMessage(env: Envelope, flags: nat, s: Summary): Message {
    Message(env.requestId, env.responseTo, SaturateU32(env.wireBytes), flags, flags / 2 % 2 == 1, env.compressed,
            if env.responseTo == 0 then CommandOf(s) else None,
            if env.responseTo != 0 then Some(StatusOf(s)) else None)
  }

  function ChecksumBytes(flags: nat): nat { if flags % 2 == 1 then 4 else 0 }

  function DecodeOpMsg(rt: Runtime, env: Envelope, payload: Bytes): Decoded<Message> {
    if |payload| < 5 then Err(Truncated)
    else
      var flags := U32At(payload, 0);
      if |payload| < 4 + ChecksumBytes(flags) then Err(Truncated)
      else
        var end := |payload| - ChecksumBytes(flags);
        var sections :- SectionsFrom(rt, payload, end, 4, NO_SECTIONS);
        if sections.summary.None? then Err(InvalidBson)
        else Ok(OpMsgMessage(env, flags, Merged(sections.summary.value, sections)))
  }

  method DecodeOpMsgSections(rt: Runtime, payload: Bytes, end: nat) returns (r: Decoded<Sections>)
    requires end <= |payload|
    ensures r == SectionsFrom(rt, payload, end, 4, NO_SECTIONS)
  {
    hide Summarize, ReadCString, AddSequence, I32At;
    var offset := 4;
    var sections := NO_SECTIONS;
    while offset < end
      invariant SectionsFrom(rt, payload, end, 4, NO_SECTIONS) == SectionsFrom(rt, payload, end, offset, sections)
      decreases end - offset
    {
      var kind := payload[offset];
      offset := offset + 1;
      var length: Decoded<int> := Err(UnsupportedSection(kind));
      if kind == 0 || kind == 1 { length := ReadI32(payload, offset); }
      if length.Err? { return Err(length.error); }
      if length.value < 5 { return Err(InvalidBson); }
      var sectionEnd := offset + length.value;
      if sectionEnd > end { return Err(InvalidBson); }
      if kind == 0 {
        if sections.summary.None? {
          var summary := Summarize(rt, payload[offset..sectionEnd], true);
          if summary.Err? { return Err(summary.error); }
          sections := sections.(summary := Some(summary.value));
        }
      } else {
        var read := ReadCString(rt, payload, offset + 4);
        if read.Err? { return Err(read.error); }
        var (identifier, start) := read.value;
        if start > sectionEnd { return Err(InvalidBson); }
        var added := AddSequence(rt, identifier, payload[start..sectionEnd], sections);
        if added.Err? { return Err(added.error); }
        sections := added.value;
      }
      offset := sectionEnd;
    }
    r := Ok(sections);
  }

  function DecodeOpMsgPrefix(rt: Runtime, env: Envelope, payload: Bytes): Decoded<Message> {
    if |payload| < 6 then Err(Truncated)
    else if payload[4] != 0 then Err(UnsupportedSection(payload[4]))
    else
      var summary :- SummarizePrefix(rt, payload[5..]);
      Ok(OpMsgMessage(env, U32At(payload, 0), summary))
  }

  // ---------------------------------------------------------------- OP_QUERY

  function DotAt(s: Bytes): (k: nat)
    ensures k <= |s|
  {
    if s == [] || s[0] == 0x2e then 0 else 1 + DotAt(s[1..])
  }

  /** Database, collection, and whether the namespace is a command namespace. */
  function SplitNamespace(namespace: Bytes): (Option<Bytes>, Option<Bytes>, bool) {
    var k := DotAt(namespace);
    if k == |namespace| then (None, None, false)
    else
      var collection := namespace[k + 1..];
      if collection == Ascii("$cmd") || Ascii("$cmd.") <= collection then (Some(namespace[..k]), None, true)
      else (Some(namespace[..k]), Some(collection), false)
  }

  function OpQueryMessage(env: Envelope, flags: nat, namespace: Bytes, s: Summary): Message {
    var (database, collection, isCommand) := SplitNamespace(namespace);
    var command :=
      if env.responseTo != 0 then None
      else if isCommand then
        match CommandOf(s)
        case None => None
        case Some(c) => Some(c.(database := OrElse(c.database, database)))
      else Some(Command(Ascii("find"), database, collection, None, None, false, None, None, s.query));
    Message(env.requestId, env.responseTo, SaturateU32(env.wireBytes), flags, false, env.compressed, command, None)
  }

  function DecodeOpQuery(rt: Runtime, env: Envelope, payload: Bytes): Decoded<Message> {
    if |payload| < 13 then Err(Truncated)
    else
      var (namespace, afterNamespace) :- ReadCString(rt, payload, 4);
      var offset := afterNamespace + 8;
      var length :- ReadI32(payload, offset);
      if length < 5 || offset + length > |payload| then Err(InvalidBson)
      else
        var summary :- Summarize(rt, payload[offset..offset + length], true);
        Ok(OpQueryMessage(env, U32At(payload, 0), namespace, summary))
  }

  function DecodeOpQueryPrefix(rt: Runtime, env: Envelope, payload: Bytes): Decoded<Message> {
    if |payload| < 13 then Err(Truncated)
    else
      var (namespace, afterNamespace) :- ReadCString(rt, payload, 4);
      var offset := afterNamespace + 8;
      if offset > |payload| then Err(Truncated)
      else
        var summary :- SummarizePrefix(rt, payload[offset..]);
        Ok(OpQueryMessage(env, U32At(payload, 0), namespace, summary))
  }

  // ---------------------------------------------------------------- OP_REPLY

  function OpReplyMessage(env: Envelope, flags: nat, summary: Option<Summary>): Message {
    var s := if summary.Some? then summary.value else EMPTY;
    Message(env.requestId, env.responseTo, SaturateU32(env.wireBytes), flags, false, env.compressed, None,
            Some(StatusOf(s).(ok := OrElse(s.ok, Some(flags % 4 == 0)))))
  }

  function DecodeOpReply(rt: Runtime, env: Envelope, payload: Bytes): Decoded<Message> {
    if |payload| < 20 then Err(Truncated)
    else if I32At(payload, 16) > 0 && |payload| > 20 then
      var length :- ReadI32(payload, 20);
      if length < 5 || 20 + length > |payload| then Err(InvalidBson)
      else
        var summary :- Summarize(rt, payload[20..20 + length], true);
        Ok(OpReplyMessage(env, U32At(payload, 0), Some(summary)))
    else Ok(OpReplyMessage(env, U32At(payload, 0), None))
  }

  function DecodeOpReplyPrefix(rt: Runtime, env: Envelope, payload: Bytes): Decoded<Message> {
    if |payload| < 20 then Err(Truncated)
    else if I32At(payload, 16) > 0 && |payload| > 20 then
      var summary :- SummarizePrefix(rt, payload[20..]);
      Ok(OpReplyMessage(env, U32At(payload, 0), Some(summary)))
    else Ok(OpReplyMessage(env, U32At(payload, 0), None))
  }

  // ---------------------------------------------------------------- frames

  function DecodePlain(rt: Runtime, env: Envelope, opcode: int, payload: Bytes): Decoded<Message> {
    if opcode == OP_MSG then DecodeOpMsg(rt, env, payload)
    else if opcode == OP_QUERY then DecodeOpQuery(rt, env, payload)
    else if opcode == OP_REPLY then DecodeOpReply(rt, env, payload)
    else Err(UnsupportedOpcode(opcode))
  }

  function Decompress(rt: Runtime, compressor: byte, compressed: Bytes, size: nat): Decoded<Bytes> {
    match compressor
    case 0 => Ok(compressed)
    case 1 =>
      (match rt.snappyLength(compressed)
       case None => Err(Decompression)
       case Some(n) =>
         if n != size then Err(InvalidCompressed)
         else if rt.snappy(compressed).None? then Err(Decompression)
         else Ok(rt.snappy(compressed).value))
    case 2 => if rt.zlib(compressed, size + 1).None? then Err(Decompression) else Ok(rt.zlib(compressed, size + 1).value)
    case 3 => if rt.zstd(compressed, size + 1).None? then Err(Decompression) else Ok(rt.zstd(compressed, size + 1).value)
    case other => Err(UnsupportedCompressor(other))
  }

  function DecodeCompressed(rt: Runtime, env: Envelope, payload: Bytes, maxMessage: nat): Decoded<Message> {
    if |payload| < 9 then Err(InvalidCompressed)
    else
      var opcode, size := I32At(payload, 0), I32At(payload, 4);
      if size < 0 || size > (if maxMessage >= 16 then maxMessage - 16 else 0) then Err(FrameTooLarge)
      else
        var uncompressed :- Decompress(rt, payload[8], payload[9..], size);
        if |uncompressed| != size then Err(InvalidCompressed)
        else DecodePlain(rt, env, opcode, uncompressed)
  }

  function DecodeFrame(rt: Runtime, frame: Bytes, maxMessage: nat): Decoded<Message> {
    if |frame| < 16 then Err(Truncated)
    else
      var declared := I32At(frame, 0);
      if declared < 16 || declared != |frame| then Err(InvalidFrameLength(declared))
      else if |frame| > maxMessage then Err(FrameTooLarge)
      else
        var env := Envelope(I32At(frame, 4), I32At(frame, 8), |frame|, false);
        var opcode := I32At(frame, 12);
        if opcode == OP_COMPRESSED
        then DecodeCompressed(rt, env.(compressed := true), frame[16..], maxMessage)
        else DecodePlain(rt, env, opcode, frame[16..])
  }

  function DecodeFramePrefix(rt: Runtime, prefix: Bytes, maxMessage: nat): Decoded<Message> {
    if |prefix| < 16 then Err(Truncated)
    else
      var declared := I32At(prefix, 0);
      if declared < 16 then Err(InvalidFrameLength(declared))
      else if declared > maxMessage then Err(FrameTooLarge)
      else if |prefix| >= declared then DecodeFrame(rt, prefix[..declared], maxMessage)
      else
        var env := Envelope(I32At(prefix, 4), I32At(prefix, 8), declared, false);
        var opcode := I32At(prefix, 12);
        if opcode == OP_COMPRESSED then Err(Truncated)
        else if opcode == OP_MSG then DecodeOpMsgPrefix(rt, env, prefix[16..])
        else if opcode == OP_QUERY then DecodeOpQueryPrefix(rt, env, prefix[16..])
        else if opcode == OP_REPLY then DecodeOpReplyPrefix(rt, env, prefix[16..])
        else Err(UnsupportedOpcode(opcode))
  }

  // ---------------------------------------------------------------- frames as printed

  /** Header and payload, as the drivers (and the tests of the source) write them. */
  function Frame(requestId: int, responseTo: int, opcode: int, payload: Bytes): (f: Bytes)
    requires -I32_LIMIT <= requestId < I32_LIMIT && -I32_LIMIT <= responseTo < I32_LIMIT
    requires -I32_LIMIT <= opcode < I32_LIMIT
    ensures |f| == 16 + |payload|
  {
    LengthBytes(16 + |payload|) + I32Bytes(requestId) + I32Bytes(responseTo) + I32Bytes(opcode) + payload
  }

  lemma FrameFields(requestId: int, responseTo: int, opcode: int, payload: Bytes)
    requires -I32_LIMIT <= requestId < I32_LIMIT && -I32_LIMIT <= responseTo < I32_LIMIT
    requires -I32_LIMIT <= opcode < I32_LIMIT && 16 + |payload| < I32_LIMIT
    ensures var f := Frame(requestId, responseTo, opcode, payload);
            && I32At(f, 0) == |f| && I32At(f, 4) == requestId && I32At(f, 8) == responseTo
            && I32At(f, 12) == opcode && f[16..] == payload
  {
    hide LengthBytes, I32Bytes, I32At;
    var f := Frame(requestId, responseTo, opcode, payload);
    assert f[0..0 + 4] == LengthBytes(|f|);
    assert f[4..4 + 4] == I32Bytes(requestId);
    assert f[8..8 + 4] == I32Bytes(responseTo);
    assert f[12..12 + 4] == I32Bytes(opcode);
    LengthRoundTrip(f, 0, |f|);
    I32Anywhere(f, 4, requestId);
    I32Anywhere(f, 8, responseTo);
    I32Anywhere(f, 12, opcode);
  }

  /** Decoding a printed frame is decoding its payload. */
  lemma DecodePrinted(rt: Runtime, requestId: int, responseTo: int, opcode: int, payload: Bytes, maxMessage: nat)
    requires -I32_LIMIT <= requestId < I32_LIMIT && -I32_LIMIT <= responseTo < I32_LIMIT
    requires -I32_LIMIT <= opcode < I32_LIMIT && opcode != OP_COMPRESSED
    requires 16 + |payload| < I32_LIMIT && 16 + |payload| <= maxMessage
    ensures DecodeFrame(rt, Frame(requestId, responseTo, opcode, payload), maxMessage) ==
            DecodePlain(rt, Envelope(requestId, responseTo, 16 + |payload|, false), opcode, payload)
  {
    hide Frame, I32At, DecodePlain;
    FrameFields(requestId, responseTo, opcode, payload);
  }

  // ---------------------------------------------------------------- OP_COMPRESSED

  /** `compressed` is what the named compressor makes of `data`. */
  predicate Compresses(rt: Runtime, compressor: byte, compressed: Bytes, data: Bytes) {
    match compressor
    case 0 => compressed == data
    case 1 => rt.snappyLength(compressed) == Some(|data|) && rt.snappy(compressed) == Some(data)
    case 2 => rt.zlib(compressed, |data| + 1) == Some(data)
    case 3 => rt.zstd(compressed, |data| + 1) == Some(data)
    case _ => false
  }

  function CompressedPayload(opcode: int, size: nat, compressor: byte, compressed: Bytes): Bytes
    requires -I32_LIMIT <= opcode < I32_LIMIT
  {
    I32Bytes(opcode) + LengthBytes(size) + [compressor] + compressed
  }

  /** The result relabelled as having arrived compressed in `wireBytes` bytes. */
  function Relabelled(r: Decoded<Message>, wireBytes: nat): Decoded<Message> {
    match r
    case Err(e) => Err(e)
    case Ok(m) => Ok(m.(compressed := true, wireBytes := SaturateU32(wireBytes)))
  }

  /** Only the two label fields of the result depend on the labels of the envelope. */
  lemma DecodeRelabelled(rt: Runtime, env: Envelope, wireBytes: nat, opcode: int, payload: Bytes)
    ensures DecodePlain(rt, env.(wireBytes := wireBytes, compressed := true), opcode, payload) ==
            Relabelled(DecodePlain(rt, env, opcode, payload), wireBytes)
  {
    hide SectionsFrom, Summarize, ReadCString, I32At, Merged, CommandOf, SplitNamespace, U32At, StatusOf;
  }

  lemma CompressedFields(opcode: int, size: nat, compressor: byte, compressed: Bytes)
    requires -I32_LIMIT <= opcode < I32_LIMIT && size < I32_LIMIT
    ensures var p := CompressedPayload(opcode, size, compressor, compressed);
            |p| == 9 + |compressed| && I32At(p, 0) == opcode && I32At(p, 4) == size && p[8] == compressor
            && p[9..] == compressed
  {
    hide LengthBytes, I32Bytes, I32At;
    var p := CompressedPayload(opcode, size, compressor, compressed);
    assert p[0..0 + 4] == I32Bytes(opcode);
    assert p[4..4 + 4] == LengthBytes(size);
    I32Anywhere(p, 0, opcode);
    LengthRoundTrip(p, 4, size);
  }

  /** Compression is transparent: a frame wrapped in OP_COMPRESSED decodes, or fails to
      decode, exactly as the frame itself does, apart from the two label fields. */
  lemma CompressionTransparent(
    rt: Runtime, requestId: int, responseTo: int, opcode: int, payload: Bytes,
    compressor: byte, compressed: Bytes, maxMessage: nat
  )
    requires -I32_LIMIT <= requestId < I32_LIMIT && -I32_LIMIT <= responseTo < I32_LIMIT
    requires -I32_LIMIT <= opcode < I32_LIMIT && opcode != 2012
    requires Compresses(rt, compressor, compressed, payload)
    requires 16 + |payload| < I32_LIMIT && 16 + |payload| <= maxMessage
    requires 25 + |compressed| < I32_LIMIT && 25 + |compressed| <= maxMessage
    ensures var wrapped := Frame(requestId, responseTo, 2012,
                                 CompressedPayload(opcode, |payload|, compressor, compressed));
            DecodeFrame(rt, wrapped, maxMessage) ==
            Relabelled(DecodeFrame(rt, Frame(requestId, responseTo, opcode, payload), maxMessage), |wrapped|)
  {
    hide Frame, CompressedPayload, DecodePlain, I32At;
    var inner := CompressedPayload(opcode, |payload|, compressor, compressed);
    CompressedFields(opcode, |payload|, compressor, compressed);
    FrameFields(requestId, responseTo, OP_COMPRESSED, inner);
    DecodePrinted(rt, requestId, responseTo, opcode, payload, maxMessage);
    DecodeRelabelled(rt, Envelope(requestId, responseTo, 16 + |payload|, false), 25 + |compressed|, opcode, payload);
  }
}
