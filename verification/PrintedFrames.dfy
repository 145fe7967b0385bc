/** Whole frames, as they are printed, against what their decoding must say: header, flag
    bits, and each field of the command or the status read off the document's elements. */
module PrintedFrames {
  import opened Primitives
  import opened Bson
  import opened Elements
  import opened Json
  import opened Summaries
  import opened Readings
  import opened Wire
  import SF = SequenceForms

  // ---------------------------------------------------------------- commands and statuses

  /** The commands whose first value names a collection. */
  predicate TakesCollection(name: Bytes) {
    || Spelled(name, "aggregate") || Spelled(name, "clonecollectionascapped") || Spelled(name, "collmod")
    || Spelled(name, "compact") || Spelled(name, "converttocapped") || Spelled(name, "count") || Spelled(name, "create")
    || Spelled(name, "createindexes") || Spelled(name, "delete") || Spelled(name, "distinct") || Spelled(name, "drop")
    || Spelled(name, "dropindexes") || Spelled(name, "emptycapped") || Spelled(name, "find")
    || Spelled(name, "findandmodify") || Spelled(name, "geosearch") || Spelled(name, "getmore")
    || Spelled(name, "insert") || Spelled(name, "killcursors") || Spelled(name, "listindexes")
    || Spelled(name, "mapreduce") || Spelled(name, "parallelcollectionscan") || Spelled(name, "renamecollection")
    || Spelled(name, "update") || Spelled(name, "validate")
  }

  /** The commands whose first value names a user. */
  predicate TakesUser(name: Bytes) {
    || Spelled(name, "createuser") || Spelled(name, "dropuser") || Spelled(name, "grantrolestouser")
    || Spelled(name, "revokerolesfromuser") || Spelled(name, "updateuser") || Spelled(name, "usersinfo")
  }

  function FirstText(rt: Runtime, es: seq<Element>): Option<Bytes> {
    if es != [] && es[0].ty == STRING then ReadString(rt, es[0].value, 0).ToOption() else None
  }

  /** The command is the one these elements spell. */
  ghost predicate CommandReads(rt: Runtime, es: seq<Element>, c: Command) {
    && es != [] && c.name == es[0].key
    && c.database == TextIn(rt, LastWith(es, "$db", Some(STRING)))
    && c.collection ==
       (if TakesCollection(c.name) then OrElse(FirstText(rt, es), TextIn(rt, LastWith(es, "collection", Some(STRING)))) else None)
    && c.mechanism == Mechanism(rt, es, true)
    && c.principal == OrElse(User(rt, es, true), if TakesUser(c.name) then FirstText(rt, es) else None)
    && c.speculative == Speculative(rt, es, true)
    && c.deleteScope == (if Spelled(c.name, "delete") then var scan :- DeleteScan(rt, es); scan.0 else None)
    && c.deleteStatements == (if Spelled(c.name, "delete") then var scan :- DeleteScan(rt, es); Some(scan.1) else None)
    && c.query == (if Exported(c.name) then ContainerToJson(rt, Serialize(es), false).ToOption() else None)
  }

  ghost predicate StatusReads(rt: Runtime, es: seq<Element>, s: Status) {
    && s.ok == FlagIn(rt, LastWith(es, "ok", None))
    && s.code == (var e :- LastWith(es, "code", None); ReadI32ish(rt, e.value, 0, e.ty))
    && s.codeName == TextIn(rt, LastWith(es, "codeName", Some(STRING)))
    && s.affected == (var e :- LastWith(es, "n", None); ReadU64ish(rt, e.value, 0, e.ty))
    && s.authDone == Done(rt, es, true)
  }

  lemma UserNames(name: Bytes)
    ensures HasPrincipalArgument(Lower(name)) <==> TakesUser(name)
    ensures Lower(name) == Ascii("delete") <==> Spelled(name, "delete")
  {
    hide Spelled, Lower;
    SpelledFolds(name, "createuser");
    SpelledFolds(name, "dropuser");
    SpelledFolds(name, "grantrolestouser");
    SpelledFolds(name, "revokerolesfromuser");
    SpelledFolds(name, "updateuser");
    SpelledFolds(name, "usersinfo");
    SpelledFolds(name, "delete");
  }

  lemma CollectionWordsOne(name: Bytes)
    ensures Lower(name) == Ascii("aggregate") <==> Spelled(name, "aggregate")
    ensures Lower(name) == Ascii("clonecollectionascapped") <==> Spelled(name, "clonecollectionascapped")
    ensures Lower(name) == Ascii("collmod") <==> Spelled(name, "collmod")
    ensures Lower(name) == Ascii("compact") <==> Spelled(name, "compact")
    ensures Lower(name) == Ascii("converttocapped") <==> Spelled(name, "converttocapped")
    ensures Lower(name) == Ascii("count") <==> Spelled(name, "count")
    ensures Lower(name) == Ascii("create") <==> Spelled(name, "create")
    ensures Lower(name) == Ascii("createindexes") <==> Spelled(name, "createindexes")
    ensures Lower(name) == Ascii("delete") <==> Spelled(name, "delete")
  {
    hide Spelled, Lower;
    SpelledFolds(name, "aggregate");
    SpelledFolds(name, "clonecollectionascapped");
    SpelledFolds(name, "collmod");
    SpelledFolds(name, "compact");
    SpelledFolds(name, "converttocapped");
    SpelledFolds(name, "count");
    SpelledFolds(name, "create");
    SpelledFolds(name, "createindexes");
    SpelledFolds(name, "delete");
  }

  lemma CollectionWordsTwo(name: Bytes)
    ensures Lower(name) == Ascii("distinct") <==> Spelled(name, "distinct")
    ensures Lower(name) == Ascii("drop") <==> Spelled(name, "drop")
    ensures Lower(name) == Ascii("dropindexes") <==> Spelled(name, "dropindexes")
    ensures Lower(name) == Ascii("emptycapped") <==> Spelled(name, "emptycapped")
    ensures Lower(name) == Ascii("find") <==> Spelled(name, "find")
    ensures Lower(name) == Ascii("findandmodify") <==> Spelled(name, "findandmodify")
    ensures Lower(name) == Ascii("geosearch") <==> Spelled(name, "geosearch")
    ensures Lower(name) == Ascii("getmore") <==> Spelled(name, "getmore")
  {
    hide Spelled, Lower;
    SpelledFolds(name, "distinct");
    SpelledFolds(name, "drop");
    SpelledFolds(name, "dropindexes");
    SpelledFolds(name, "emptycapped");
    SpelledFolds(name, "find");
    SpelledFolds(name, "findandmodify");
    SpelledFolds(name, "geosearch");
    SpelledFolds(name, "getmore");
  }

  lemma CollectionWordsThree(name: Bytes)
    ensures Lower(name) == Ascii("insert") <==> Spelled(name, "insert")
    ensures Lower(name) == Ascii("killcursors") <==> Spelled(name, "killcursors")
    ensures Lower(name) == Ascii("listindexes") <==> Spelled(name, "listindexes")
    ensures Lower(name) == Ascii("mapreduce") <==> Spelled(name, "mapreduce")
    ensures Lower(name) == Ascii("parallelcollectionscan") <==> Spelled(name, "parallelcollectionscan")
    ensures Lower(name) == Ascii("renamecollection") <==> Spelled(name, "renamecollection")
    ensures Lower(name) == Ascii("update") <==> Spelled(name, "update")
    ensures Lower(name) == Ascii("validate") <==> Spelled(name, "validate")
  {
    hide Spelled, Lower;
    SpelledFolds(name, "insert");
    SpelledFolds(name, "killcursors");
    SpelledFolds(name, "listindexes");
    SpelledFolds(name, "mapreduce");
    SpelledFolds(name, "parallelcollectionscan");
    SpelledFolds(name, "renamecollection");
    SpelledFolds(name, "update");
    SpelledFolds(name, "validate");
  }

  lemma CollectionNames(name: Bytes)
    ensures HasCollectionArgument(Lower(name)) <==> TakesCollection(name)
  {
    hide Spelled, Lower;
    CollectionWordsOne(name);
    CollectionWordsTwo(name);
    CollectionWordsThree(name);
  }

  /** The command and the status of a document. */
  lemma DocumentReads(rt: Runtime, es: seq<Element>)
    requires ValidElements(rt, es) && |Serialize(es)| < I32_LIMIT
    ensures Summarize(rt, Serialize(es), true).Ok?
    ensures var s := Summarize(rt, Serialize(es), true).value;
            && StatusReads(rt, es, StatusOf(s))
            && (CommandOf(s).Some? <==> es != [])
            && (es != [] ==> CommandReads(rt, es, CommandOf(s).value))
  {
    hide Summarize, Serialize, LastWith, Mechanism, User, Done, Speculative, DeleteScan, ReadString, ReadBoolish, ReadI32ish,
      ReadU64ish, Exported, ContainerToJson, HasCollectionArgument, HasPrincipalArgument, TakesCollection, TakesUser, Spelled,
      ValidElement;
    SummaryReads(rt, es, true);
    if es != [] {
      UserNames(es[0].key);
      CollectionNames(es[0].key);
    }
  }

  // ---------------------------------------------------------------- OP_MSG

  /** An OP_MSG frame with one body. */
  function MsgFrame(requestId: int, responseTo: int, flags: nat, es: seq<Element>, checksum: Bytes): (f: Bytes)
    requires -I32_LIMIT <= requestId < I32_LIMIT && -I32_LIMIT <= responseTo < I32_LIMIT && flags < U32_LIMIT
    ensures |f| == 21 + |Serialize(es)| + |checksum|
  {
    Frame(requestId, responseTo, 2013, U32Bytes(flags) + [0] + Serialize(es) + checksum)
  }

  /** A request yields a command, a response a status, each read off the document. */
  ghost predicate BodyReads(rt: Runtime, es: seq<Element>, m: Message) {
    if m.responseTo == 0
    then m.status.None? && (m.command.Some? <==> es != []) && (es != [] ==> CommandReads(rt, es, m.command.value))
    else m.command.None? && m.status.Some? && StatusReads(rt, es, m.status.value)
  }

  /** The header is read back, and the body as it should. */
  ghost predicate MsgReads(
    rt: Runtime, es: seq<Element>, requestId: int, responseTo: int, size: nat, flags: nat, moreToCome: bool, r: Decoded<Message>
  ) {
    && r.Ok?
    && r.value.requestId == requestId && r.value.responseTo == responseTo && !r.value.compressed
    && r.value.wireBytes == size && r.value.flags == flags && r.value.moreToCome == moreToCome
    && BodyReads(rt, es, r.value)
  }

  /** The flag word with these two lowest bits. */
  predicate FlagBits(flags: nat, lowest: bool, next: bool) {
    flags < U32_LIMIT && flags % 4 == (if lowest then 1 else 0) + (if next then 2 else 0)
  }

  lemma BitsOf(flags: nat, lowest: bool, next: bool)
    requires FlagBits(flags, lowest, next)
    ensures flags < U32_LIMIT && (flags % 2 == 1 <==> lowest) && (flags / 2 % 2 == 1 <==> next) && (flags % 4 == 0 <==> !lowest && !next)
  {
  }

  /** The lowest flag bit says that four bytes of checksum follow the body, the next that
      no response is asked for. */
  lemma PrintedMsg(
    rt: Runtime, requestId: int, responseTo: int, flags: nat, checksummed: bool, moreToCome: bool,
    es: seq<Element>, checksum: Bytes, maxMessage: nat
  )
    requires -I32_LIMIT <= requestId < I32_LIMIT && -I32_LIMIT <= responseTo < I32_LIMIT
    requires FlagBits(flags, checksummed, moreToCome) && |checksum| == if checksummed then 4 else 0
    requires ValidElements(rt, es) && 21 + |Serialize(es)| + |checksum| < I32_LIMIT
    requires 21 + |Serialize(es)| + |checksum| <= maxMessage
    ensures var frame := MsgFrame(requestId, responseTo, flags, es, checksum);
            MsgReads(rt, es, requestId, responseTo, |frame|, flags, moreToCome, DecodeFrame(rt, frame, maxMessage))
  {
    hide Summarize, Serialize, Frame, DecodeFrame, DecodeOpMsg, CommandReads, StatusReads, U32Bytes, CommandOf, ValidElement,
      FlagBits;
    BitsOf(flags, checksummed, moreToCome);
    var d := Serialize(es);
    SerializeFramed(es);
    DocumentReads(rt, es);
    var payload := U32Bytes(flags) + [0] + d + checksum;
    assert payload == SF.BodyPayload(flags, d, checksum);
    DecodePrinted(rt, requestId, responseTo, OP_MSG, payload, maxMessage);
    SF.DecodeBody(rt, Envelope(requestId, responseTo, 16 + |payload|, false), flags, d, checksum);
  }

  /** The opcodes, by number. */
  lemma Opcodes(rt: Runtime, env: Envelope, opcode: int, payload: Bytes)
    ensures DecodePlain(rt, env, 1, payload) == DecodeOpReply(rt, env, payload)
    ensures DecodePlain(rt, env, 2004, payload) == DecodeOpQuery(rt, env, payload)
    ensures DecodePlain(rt, env, 2013, payload) == DecodeOpMsg(rt, env, payload)
    ensures opcode != 1 && opcode != 2004 && opcode != 2013 ==>
              DecodePlain(rt, env, opcode, payload) == Err(UnsupportedOpcode(opcode))
  {
    hide DecodeOpReply, DecodeOpQuery, DecodeOpMsg;
  }

  // ---------------------------------------------------------------- OP_REPLY

  /** Flags, cursor and starting point, the number of documents, then the first of them. */
  function ReplyPayload(flags: nat, middle: Bytes, returned: int, documents: Bytes): Bytes
    requires flags < U32_LIMIT && |middle| == 12 && -I32_LIMIT <= returned < I32_LIMIT
  {
    U32Bytes(flags) + middle + I32Bytes(returned) + documents
  }

  lemma ReplyShape(flags: nat, middle: Bytes, returned: int, documents: Bytes)
    requires flags < U32_LIMIT && |middle| == 12 && -I32_LIMIT <= returned < I32_LIMIT
    ensures var p := ReplyPayload(flags, middle, returned, documents);
            && |p| == 20 + |documents| && U32At(p, 0) == flags && I32At(p, 16) == returned && p[20..] == documents
            && (|documents| >= 4 ==> I32At(p, 20) == I32At(documents, 0))
  {
    hide U32Bytes, I32Bytes, U32At;
    var p := ReplyPayload(flags, middle, returned, documents);
    assert p[0..0 + 4] == U32Bytes(flags) && p[16..16 + 4] == I32Bytes(returned) && p[20..] == documents;
    U32Anywhere(p, 0, flags);
    I32Anywhere(p, 16, returned);
    if |documents| >= 4 {
      assert SameWindow(p, 20, documents, 0, 4) by { assert p[20..24] == documents[0..4]; }
      WindowI32(p, 20, documents, 0, 4);
    }
  }

  /** A reply with a document has the document's status; where the document has no `ok`,
      either of the two lowest flag bits stands for a failure. */
  lemma PrintedReply(
    rt: Runtime, env: Envelope, flags: nat, notFound: bool, failed: bool, middle: Bytes, returned: int, es: seq<Element>
  )
    requires FlagBits(flags, notFound, failed) && |middle| == 12 && 0 < returned < I32_LIMIT
    requires ValidElements(rt, es) && |Serialize(es)| < I32_LIMIT && env.wireBytes < U32_LIMIT
    ensures var r := DecodeOpReply(rt, env, ReplyPayload(flags, middle, returned, Serialize(es)));
            && r.Ok? && r.value.command.None? && r.value.status.Some? && !r.value.moreToCome
            && r.value.requestId == env.requestId && r.value.responseTo == env.responseTo
            && r.value.wireBytes == env.wireBytes && r.value.flags == flags && r.value.compressed == env.compressed
            && var ok := FlagIn(rt, LastWith(es, "ok", None));
               && StatusReads(rt, es, r.value.status.value.(ok := ok))
               && r.value.status.value.ok == OrElse(ok, Some(!notFound && !failed))
  {
    hide Summarize, Serialize, LastWith, ReadI32ish, ReadU64ish, ReadBoolish, ReadString, Done, FlagBits, DecodeOpReply,
      ReplyPayload, ValidElement, CommandOf, CommandReads;
    BitsOf(flags, notFound, failed);
    SerializeFramed(es);
    DocumentReads(rt, es);
    ReplyDecodes(rt, env, flags, middle, returned, Serialize(es));
  }

  lemma ReplyDecodes(rt: Runtime, env: Envelope, flags: nat, middle: Bytes, returned: int, d: Bytes)
    requires flags < U32_LIMIT && |middle| == 12 && 0 < returned < I32_LIMIT
    requires Framed(d) && Summarize(rt, d, true).Ok?
    ensures DecodeOpReply(rt, env, ReplyPayload(flags, middle, returned, d)) ==
            Ok(OpReplyMessage(env, flags, Some(Summarize(rt, d, true).value)))
  {
    hide Summarize, U32At, I32At, ReplyPayload, OpReplyMessage;
    ReplyShape(flags, middle, returned, d);
    var p := ReplyPayload(flags, middle, returned, d);
    assert p[20..20 + |d|] == d;
  }

  /** A reply without documents has the flags' verdict and nothing else. */
  lemma PrintedEmptyReply(rt: Runtime, env: Envelope, flags: nat, notFound: bool, failed: bool, middle: Bytes)
    requires FlagBits(flags, notFound, failed) && |middle| == 12
    ensures var r := DecodeOpReply(rt, env, ReplyPayload(flags, middle, 0, []));
            r.Ok? && r.value.command.None? && r.value.status == Some(Status(Some(!notFound && !failed), None, None, None, None))
  {
    hide U32At, I32At, FlagBits, ReplyPayload;
    BitsOf(flags, notFound, failed);
    ReplyShape(flags, middle, 0, []);
  }

  // ---------------------------------------------------------------- OP_QUERY

  const DOT: byte := 0x2e

  /** Flags, namespace, numbers to skip and to return, then the document. */
  function QueryPayload(flags: nat, namespace: Bytes, numbers: Bytes, document: Bytes): Bytes
    requires flags < U32_LIMIT && |numbers| == 8
  {
    U32Bytes(flags) + namespace + [0] + numbers + document
  }

  lemma QueryShape(rt: Runtime, flags: nat, namespace: Bytes, numbers: Bytes, document: Bytes)
    requires flags < U32_LIMIT && |numbers| == 8 && 0 !in namespace && rt.utf8(namespace)
    ensures var p := QueryPayload(flags, namespace, numbers, document);
            var offset := |namespace| + 13;
            && ReadCString(rt, p, 4) == Ok((namespace, |namespace| + 5))
            && |p| == offset + |document| && p[offset..] == document && U32At(p, 0) == flags
            && (|document| >= 4 ==> I32At(p, offset) == I32At(document, 0))
  {
    hide U32Bytes, U32At, ReadCString;
    var p := QueryPayload(flags, namespace, numbers, document);
    assert p[0..0 + 4] == U32Bytes(flags) && p[4..4 + |namespace|] == namespace && p[4 + |namespace|] == 0;
    U32Anywhere(p, 0, flags);
    CStringAt(rt, p, 4, namespace);
    var offset := |namespace| + 13;
    assert p[offset..] == document;
    if |document| >= 4 {
      assert SameWindow(p, offset, document, 0, 4) by { assert p[offset..offset + 4] == document[0..4]; }
      WindowI32(p, offset, document, 0, 4);
    }
  }

  lemma {:induction false} DotSplits(database: Bytes, rest: Bytes)
    requires DOT !in database
    ensures DotAt(database + [DOT] + rest) == |database|
  {
    var s := database + [DOT] + rest;
    if database == [] {
      assert s[0] == DOT;
    } else {
      assert s[0] == database[0] && s[1..] == database[1..] + [DOT] + rest;
      DotSplits(database[1..], rest);
    }
  }

  lemma {:induction false} NoDot(s: Bytes)
    requires DOT !in s
    ensures DotAt(s) == |s|
  {
    if s == [] {
    } else {
      NoDot(s[1..]);
    }
  }

  /** The name after the first dot of a command namespace. */
  predicate CommandNamespace(collection: Bytes) {
    collection == Ascii("$cmd") || (|collection| > 5 && collection[..5] == Ascii("$cmd.")) || collection == Ascii("$cmd.")
  }

  lemma NamespaceReads(database: Bytes, collection: Bytes)
    requires DOT !in database
    ensures SplitNamespace(database + [DOT] + collection) ==
            if CommandNamespace(collection) then (Some(database), None, true) else (Some(database), Some(collection), false)
  {
    hide DotAt;
    DotSplits(database, collection);
    var s := database + [DOT] + collection;
    assert s[..|database|] == database && s[|database| + 1..] == collection;
    if Ascii("$cmd.") <= collection { assert collection[..5] == Ascii("$cmd."); }
  }

  /** The command of a query on `database.collection`: in a command namespace the one its
      document spells, with the namespace's database where the document names none;
      elsewhere a `find` on that collection. */
  ghost predicate QueryReads(rt: Runtime, database: Bytes, collection: Bytes, es: seq<Element>, c: Command) {
    if CommandNamespace(collection) then
      var own := TextIn(rt, LastWith(es, "$db", Some(STRING)));
      CommandReads(rt, es, c.(database := own)) && c.database == OrElse(own, Some(database))
    else
      c == Command(
             Ascii("find"), Some(database), Some(collection), None, None, false, None, None,
             if es != [] && Exported(es[0].key) then ContainerToJson(rt, Serialize(es), false).ToOption() else None)
  }

  lemma PrintedQuery(
    rt: Runtime, env: Envelope, flags: nat, database: Bytes, collection: Bytes, numbers: Bytes, es: seq<Element>
  )
    requires flags < U32_LIMIT && |numbers| == 8 && DOT !in database && env.wireBytes < U32_LIMIT && env.responseTo == 0
    requires 0 !in database && 0 !in collection && rt.utf8(database + [DOT] + collection)
    requires ValidElements(rt, es) && |Serialize(es)| < I32_LIMIT
    ensures var r := DecodeOpQuery(rt, env, QueryPayload(flags, database + [DOT] + collection, numbers, Serialize(es)));
            && r.Ok? && r.value.status.None? && !r.value.moreToCome && r.value.flags == flags
            && r.value.requestId == env.requestId && r.value.responseTo == 0 && r.value.wireBytes == env.wireBytes
            && (r.value.command.Some? <==> es != [] || !CommandNamespace(collection))
            && (r.value.command.Some? ==> QueryReads(rt, database, collection, es, r.value.command.value))
  {
    hide Summarize, Serialize, LastWith, ReadString, U32At, I32At, QueryPayload, ValidElement, ReadCString, SplitNamespace,
      CommandNamespace, CommandReads, StatusReads, Exported, ContainerToJson, Mechanism, User, Done, Speculative, DeleteScan,
      CommandOf;
    var namespace, d := database + [DOT] + collection, Serialize(es);
    NamespaceReads(database, collection);
    SerializeFramed(es);
    DocumentReads(rt, es);
    SummaryReads(rt, es, true);
    QueryShape(rt, flags, namespace, numbers, d);
    var p, offset := QueryPayload(flags, namespace, numbers, d), |namespace| + 13;
    assert p[offset..offset + |d|] == d;
    var s := Summarize(rt, d, true).value;
    if es != [] { OwnDatabase(rt, es, CommandOf(s).value, database); }
  }

  lemma OwnDatabase(rt: Runtime, es: seq<Element>, c: Command, database: Bytes)
    requires CommandReads(rt, es, c)
    ensures var own := TextIn(rt, LastWith(es, "$db", Some(STRING)));
            var d := c.(database := OrElse(c.database, Some(database)));
            CommandReads(rt, es, d.(database := own)) && d.database == OrElse(own, Some(database))
  {
    hide LastWith, ReadString, Mechanism, User, Speculative, DeleteScan, Exported, TakesCollection, TakesUser, ContainerToJson,
      Spelled;
    var own := TextIn(rt, LastWith(es, "$db", Some(STRING)));
    assert c.(database := OrElse(c.database, Some(database))).(database := own) == c;
  }
}
