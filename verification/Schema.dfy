/** Events and batches, and the check every receiver runs on a batch
    (crates/schema/src/lib.rs). */
module Schema {
  import opened Primitives
  import opened Json

  const EVENT_SCHEMA_VERSION: nat := 1
  const BATCH_SCHEMA_VERSION: nat := 1

  /** One customer, tenant, source and regional cell. */
  datatype Tenancy = Tenancy(customerId: Bytes, tenantId: Bytes, sourceId: Bytes, regionalCellId: Bytes)

  datatype Confidence = Complete | Partial | Inferred | Unknown

  datatype Capture = Capture(
    sensorId: Bytes, nodeName: Bytes, source: byte, confidence: Confidence, metadataOnly: bool, truncated: bool
  )

  datatype Identity = Identity(
    provider: Bytes, principalType: Bytes, principalArn: Bytes, accountId: Bytes,
    credentialSource: Bytes, credentialResource: Bytes
  )

  /** Pod metadata; `details` stands for the fields that are only carried along. */
  datatype Kubernetes = Kubernetes(
    clusterName: Option<Bytes>, podUid: Option<Bytes>, containerName: Option<Bytes>, details: Bytes
  )

  /** A connection, by process and kernel key. */
  datatype ConnKey = ConnKey(tgid: nat, key: nat)

  datatype Activity = Activity(
    command: Bytes,
    database: Option<Bytes>,
    collection: Option<Bytes>,
    principal: Option<Bytes>,
    principalHashed: bool,
    deleteScope: Option<Bytes>,
    deleteStatements: Option<nat>,
    affectedDocuments: Option<int>,
    query: Option<Json>,
    requestId: int,
    responseId: Option<int>,
    requestBytes: nat,
    responseBytes: Option<nat>,
    durationUs: Option<nat>,
    succeeded: Option<bool>,
    errorCode: Option<int>,
    errorName: Option<Bytes>,
    expectsResponse: bool,
    compressed: bool,
    connection: ConnKey
  )

  datatype Auth = Auth(
    mechanism: Bytes, principal: Option<Bytes>, principalHashed: bool, succeeded: Option<bool>, connection: ConnKey
  )

  datatype DnsActivity = DnsActivity(
    isResponse: bool, queryId: nat, name: Option<Bytes>, recordType: Option<nat>, responseCode: Option<nat>,
    answerCount: Option<nat>, durationUs: Option<nat>, connection: ConnKey
  )

  datatype Payload =
    | MongodbActivity(activity: Activity)
    | MongodbAuth(auth: Auth)
    | MongodbConnection(operation: nat, connection: ConnKey, connectionUs: Option<nat>)
    | Dns(dns: DnsActivity)
    | HostIo(operation: nat, ioDurationUs: nat)
    | Profile(operation: nat, durationUs: Option<nat>)
    | ProcessLifecycle(operation: nat)
    | SensorHealth(
        status: Bytes, component: Bytes, reason: Bytes, droppedEvents: nat, parseErrors: nat, spoolBytes: nat)

  datatype Event = Event(
    schemaVersion: nat,
    eventId: Bytes,
    monotonicNs: nat,
    tenancy: Tenancy,
    capture: Capture,
    kubernetes: Option<Kubernetes>,
    identity: Option<Identity>,
    payload: Payload
  )

  datatype Timestamp = Timestamp(year: int, month: nat, day: nat, hour: nat, nanos: int)

  datatype Batch = Batch(
    schemaVersion: nat, batchId: Bytes, tenancy: Tenancy, createdAt: Timestamp, events: seq<Event>
  )

  // ---------------------------------------------------------------- validation

  /** `trim().is_empty()`: nothing but Unicode white space, in UTF-8. */
  predicate Blank(s: Bytes)
    decreases |s|
  {
    || s == []
    || ((0x09 <= s[0] <= 0x0d || s[0] == 0x20) && Blank(s[1..]))
    || (|s| >= 2 && s[0] == 0xc2 && (s[1] == 0x85 || s[1] == 0xa0) && Blank(s[2..]))
    || (|s| >= 3 && s[0] == 0xe1 && s[1] == 0x9a && s[2] == 0x80 && Blank(s[3..]))
    || (|s| >= 3 && s[0] == 0xe2 && s[1] == 0x80
        && (0x80 <= s[2] <= 0x8a || s[2] == 0xa8 || s[2] == 0xa9 || s[2] == 0xaf) && Blank(s[3..]))
    || (|s| >= 3 && s[0] == 0xe2 && s[1] == 0x81 && s[2] == 0x9f && Blank(s[3..]))
    || (|s| >= 3 && s[0] == 0xe3 && s[1] == 0x80 && s[2] == 0x80 && Blank(s[3..]))
  }

  datatype BatchError =
    | UnsupportedBatchVersion | EmptyBatchIdentity | NoEvents | UnsupportedEventVersion
    | EmptyEventIdentity | ForeignEvent | CaptureMismatch

  predicate NamedTenancy(t: Tenancy) {
    !Blank(t.customerId) && !Blank(t.tenantId) && !Blank(t.sourceId) && !Blank(t.regionalCellId)
  }

  /** The `metadata_only` flag says whether query content is there. */
  predicate CaptureMatches(e: Event) {
    match e.payload
    case MongodbActivity(activity) => activity.query.Some? != e.capture.metadataOnly
    case _ => e.capture.metadataOnly
  }

  predicate NamedEvent(e: Event) {
    !Blank(e.eventId) && !Blank(e.capture.sensorId) && !Blank(e.capture.nodeName)
  }

  function Validate(b: Batch): Result<(), BatchError> {
    if b.schemaVersion != BATCH_SCHEMA_VERSION then Err(UnsupportedBatchVersion)
    else if Blank(b.batchId) || !NamedTenancy(b.tenancy) then Err(EmptyBatchIdentity)
    else if b.events == [] then Err(NoEvents)
    else if exists i :: 0 <= i < |b.events| && b.events[i].schemaVersion != EVENT_SCHEMA_VERSION
    then Err(UnsupportedEventVersion)
    else if exists i :: 0 <= i < |b.events| && !NamedEvent(b.events[i]) then Err(EmptyEventIdentity)
    else if exists i :: 0 <= i < |b.events| && b.events[i].tenancy != b.tenancy then Err(ForeignEvent)
    else if exists i :: 0 <= i < |b.events| && !CaptureMatches(b.events[i]) then Err(CaptureMismatch)
    else Ok(())
  }

  /** An event that may stand in a batch of this tenancy. */
  ghost predicate Admissible(t: Tenancy, e: Event) {
    e.schemaVersion == EVENT_SCHEMA_VERSION && NamedEvent(e) && e.tenancy == t && CaptureMatches(e)
  }

  /** Schema versions are 1, every identifying text has more than white space in it, there
      is an event, each event has the batch's customer, tenant, source and cell, and its
      `metadata_only` mark says whether a query goes out with it. */
  ghost predicate WellFormed(b: Batch) {
    && b.schemaVersion == 1 && !WhiteSpace(b.batchId)
    && !WhiteSpace(b.tenancy.customerId) && !WhiteSpace(b.tenancy.tenantId)
    && !WhiteSpace(b.tenancy.sourceId) && !WhiteSpace(b.tenancy.regionalCellId)
    && |b.events| >= 1
    && forall e | e in b.events ::
         && e.schemaVersion == 1 && !WhiteSpace(e.eventId)
         && !WhiteSpace(e.capture.sensorId) && !WhiteSpace(e.capture.nodeName)
         && e.tenancy.customerId == b.tenancy.customerId && e.tenancy.tenantId == b.tenancy.tenantId
         && e.tenancy.sourceId == b.tenancy.sourceId && e.tenancy.regionalCellId == b.tenancy.regionalCellId
         && e.capture.metadataOnly == !(e.payload.MongodbActivity? && e.payload.activity.query.Some?)
  }

  /** A batch is accepted exactly when it is well formed. */
  lemma ValidationMeans(b: Batch)
    ensures Validate(b).Ok? <==> WellFormed(b)
    ensures Validate(b).Ok? <==>
            && b.schemaVersion == BATCH_SCHEMA_VERSION && !Blank(b.batchId) && NamedTenancy(b.tenancy)
            && b.events != [] && (forall e | e in b.events :: Admissible(b.tenancy, e))
  {
    hide Blank, WhiteSpace;
    BlankEverywhere();
    if Validate(b).Ok? {
      forall e | e in b.events ensures Admissible(b.tenancy, e) {
        var i :| 0 <= i < |b.events| && b.events[i] == e;
      }
    } else {
      forall i | 0 <= i < |b.events| ensures b.events[i] in b.events {
      }
    }
  }

  lemma BlankEverywhere()
    ensures forall s: Bytes :: Blank(s) <==> WhiteSpace(s)
  {
    hide Blank, WhiteSpace;
    forall s: Bytes ensures Blank(s) <==> WhiteSpace(s) {
      BlankMeans(s);
    }
  }

  // ---------------------------------------------------------------- white space

  /** The Unicode white-space characters in UTF-8: six controls and the space, U+0085,
      U+00A0, U+1680, U+2000 to U+200A, U+2028, U+2029, U+202F, U+205F and U+3000. */
  predicate SpaceChar(c: Bytes) {
    || c == [9] || c == [10] || c == [11] || c == [12] || c == [13] || c == [32]
    || c == [194, 133] || c == [194, 160] || c == [225, 154, 128]
    || (|c| == 3 && c[0] == 226 && c[1] == 128 && (128 <= c[2] <= 138 || c[2] == 168 || c[2] == 169 || c[2] == 175))
    || c == [226, 129, 159] || c == [227, 128, 128]
  }

  /** The text is a sequence of white-space characters. */
  ghost predicate WhiteSpace(s: Bytes) {
    exists chars: seq<Bytes> :: Spaces(chars) && Concat(chars) == s
  }

  predicate Spaces(chars: seq<Bytes>) {
    forall c | c in chars :: SpaceChar(c)
  }

  /** One character off the front. */
  lemma BlankStep(c: Bytes, rest: Bytes)
    requires SpaceChar(c) && Blank(rest)
    ensures Blank(c + rest)
  {
    var s := c + rest;
    assert s[|c|..] == rest;
    assert forall i :: 0 <= i < |c| ==> s[i] == c[i];
    if |c| == 1 { assert s[1..] == rest; }
    else if |c| == 2 { assert s[2..] == rest; }
    else { assert |c| == 3 && s[3..] == rest; }
  }

  lemma BlankFront(s: Bytes) returns (n: nat)
    requires s != [] && Blank(s)
    ensures 1 <= n <= |s| && SpaceChar(s[..n]) && Blank(s[n..])
  {
    if (0x09 <= s[0] <= 0x0d || s[0] == 0x20) && Blank(s[1..]) {
      n := 1;
      assert s[..1] == [s[0]];
    } else if |s| >= 2 && s[0] == 0xc2 && (s[1] == 0x85 || s[1] == 0xa0) && Blank(s[2..]) {
      n := 2;
      assert s[..2] == [s[0], s[1]];
    } else {
      n := 3;
      assert s[..3] == [s[0], s[1], s[2]];
    }
  }

  lemma {:induction false} BlankMeans(s: Bytes)
    ensures Blank(s) <==> WhiteSpace(s)
    decreases |s|
  {
    hide Blank, SpaceChar, Concat, Spaces;
    if s == [] {
      NothingBlank();
    } else {
      if Blank(s) {
        var n := BlankFront(s);
        BlankMeans(s[n..]);
        var chars :| Spaces(chars) && Concat(chars) == s[n..];
        SpacesMore(s[..n], chars);
        assert s == s[..n] + s[n..];
      }
      if WhiteSpace(s) {
        var chars :| Spaces(chars) && Concat(chars) == s;
        SpacesBlank(chars);
      }
    }
  }

  lemma SpacesMore(c: Bytes, chars: seq<Bytes>)
    requires SpaceChar(c) && Spaces(chars)
    ensures Spaces([c] + chars) && Concat([c] + chars) == c + Concat(chars)
  {
    hide SpaceChar;
    assert ([c] + chars)[1..] == chars;
  }

  lemma NothingBlank()
    ensures Blank([]) && WhiteSpace([])
  {
    var none: seq<Bytes> := [];
    assert Spaces(none) && Concat(none) == [];
  }

  lemma {:induction false} SpacesBlank(chars: seq<Bytes>)
    requires Spaces(chars)
    ensures Blank(Concat(chars))
  {
    hide Blank, SpaceChar;
    if chars == [] {
      NothingBlank();
    } else {
      SpacesBlank(chars[1..]);
      BlankStep(chars[0], Concat(chars[1..]));
    }
  }

  lemma PrefixNotBlank(s: Bytes)
    requires s != [] && 0x61 <= s[0] <= 0x7a
    ensures !Blank(s)
  {
  }
}
