/** The Observer's event processor (`EventProcessor`, crates/observer/src/lib.rs) as
    functions on its state: request/response correlation, SCRAM attribution, eviction,
    clean-up, and the DNS pairing. The stream table is in module Capture; lookups in
    /proc and the wall clock are left out. */
module Processor {
  import opened Primitives
  import opened Json
  import opened Deletes
  import opened Wire
  import opened Schema
  import D = Dns

  const MAX_PENDING: nat := 32768
  const PENDING_TTL_NS: nat := 300_000_000_000
  const MAX_PENDING_DNS: nat := 4096
  const DNS_TTL_NS: nat := 30_000_000_000

  const OP_TCP_CONNECT: nat := 6
  const OP_TCP_CLOSE: nat := 8
  const OP_TCP_RTT: nat := 9
  const OP_TCP_RETRANSMIT: nat := 10
  const OP_OFFCPU: nat := 5
  const OP_CPU_SAMPLE: nat := 11
  const OP_FDATASYNC: nat := 12
  const OP_LOCK_WAIT: nat := 13
  const OP_PAGE_FAULT: nat := 14
  const OP_PROCESS_EXEC: nat := 15
  const OP_PROCESS_EXIT: nat := 16
  const OP_TCP_HANDSHAKE: nat := 17
  const OP_TCP_TIMEOUT: nat := 21

  datatype ProcessorConfig = ProcessorConfig(
    rt: Runtime,
    tenancy: Tenancy,
    sensorId: Bytes,
    nodeName: Bytes,
    maxMessage: nat,
    salt: Option<Bytes>,
    captureQuery: bool,
    hashPrincipal: (Bytes, Bytes) -> Bytes,
    eventDigest: (Bytes, nat, nat) -> Bytes
  )

  datatype PendingKey = PendingKey(conn: ConnKey, id: int)

  datatype Connection = Connection(
    srttUs: Option<nat>, retransmits: nat, authenticated: Option<Bytes>, pendingAuth: Option<Bytes>
  )

  const NEW_CONNECTION := Connection(None, 0, None, None)

  /** A request waiting for its response. `origin` is a history variable: the number of
      inputs processed before the request arrived. No decision reads it. */
  datatype Request = Request(
    command: Command,
    target: Option<Bytes>,
    actor: Option<Bytes>,
    conn: ConnKey,
    requestId: int,
    requestBytes: nat,
    compressed: bool,
    expectsResponse: bool,
    at: nat,
    truncated: bool,
    source: byte,
    origin: nat
  )

  datatype DnsQuery = DnsQuery(at: nat, name: Option<Bytes>, recordType: Option<nat>)

  datatype State = State(
    pending: map<PendingKey, Request>,
    pendingDns: map<PendingKey, DnsQuery>,
    connections: map<ConnKey, Connection>,
    sequence: nat,
    clock: nat
  )

  const INITIAL := State(map[], map[], map[], 0, 0)

  // ---------------------------------------------------------------- classifiers

  predicate IsSessionAuth(name: Bytes) {
    var n := Lower(name);
    n == Ascii("saslstart") || n == Ascii("saslcontinue") || n == Ascii("authenticate") || n == Ascii("getnonce")
  }

  predicate IsUserManagement(name: Bytes) { HasPrincipalArgument(Lower(name)) }

  predicate CarriesAuthentication(c: Command) { c.speculative || IsSessionAuth(c.name) }

  predicate ExchangeCompleted(c: Command, authDone: Option<bool>) {
    if c.speculative then authDone == Some(true)
    else
      var n := Lower(c.name);
      if n == Ascii("saslstart") || n == Ascii("saslcontinue") then authDone == Some(true)
      else n == Ascii("authenticate")
  }

  /** `take_hashed_principal`: the hash, when there is a principal and a salt. */
  function HashOf(cfg: ProcessorConfig, c: Command): Option<Bytes> {
    if c.principal.Some? && cfg.salt.Some? then Some(cfg.hashPrincipal(cfg.salt.value, c.principal.value)) else None
  }

  // ---------------------------------------------------------------- events

  function NextSequence(n: nat): nat { (n + 1) % (U64_MAX + 1) }

  datatype Seed = Seed(at: nat, source: byte, complete: bool, truncated: bool)

  function EventFrom(cfg: ProcessorConfig, s: State, seed: Seed, metadataOnly: bool, payload: Payload): Event {
    Event(
      EVENT_SCHEMA_VERSION,
      Ascii("evt-") + EncodeHex(cfg.eventDigest(cfg.sensorId, seed.at, NextSequence(s.sequence))),
      seed.at, cfg.tenancy,
      Capture(cfg.sensorId, cfg.nodeName, seed.source,
              if seed.truncated then Partial else if seed.complete then Complete else Inferred,
              metadataOnly, seed.truncated),
      None, None, payload)
  }

  /** Emitting an event advances the sequence number. */
  function Emit(cfg: ProcessorConfig, s: State, seed: Seed, payload: Payload): (State, seq<Event>) {
    (s.(sequence := NextSequence(s.sequence)), [EventFrom(cfg, s, seed, true, payload)])
  }

  function GetConnection(s: State, conn: ConnKey): Connection {
    if conn in s.connections then s.connections[conn] else NEW_CONNECTION
  }

  function PutConnection(s: State, conn: ConnKey, c: Connection): State {
    s.(connections := s.connections[conn := c])
  }

  // ---------------------------------------------------------------- completion

  /** The part of a response that completes a request. */
  datatype Reply = Reply(message: Message, durationUs: nat)

  function StatusIn(reply: Option<Reply>): Option<Status> {
    if reply.Some? then reply.value.message.status else None
  }

  function Succeeded(reply: Option<Reply>): Option<bool> {
    var status :- StatusIn(reply);
    status.ok
  }

  function AuthDoneIn(reply: Option<Reply>): Option<bool> {
    var status :- StatusIn(reply);
    status.authDone
  }

  /** The session principal an authentication exchange is about. */
  function SessionPrincipal(r: Request, c: Connection): Option<Bytes> {
    OrElse(r.target, c.pendingAuth)
  }

  /** The effect of a completed authentication request on its connection. */
  function Authenticated(r: Request, c: Connection, reply: Option<Reply>): Connection {
    if Succeeded(reply) == Some(false) then c.(pendingAuth := None)
    else if Succeeded(reply) == Some(true) && ExchangeCompleted(r.command, AuthDoneIn(reply)) then
      c.(authenticated := SessionPrincipal(r, c), pendingAuth := None)
    else c
  }

  function ScopeName(scope: DeleteScope): Bytes {
    match scope
    case Single => Ascii("single")
    case Multi => Ascii("multi")
    case Mixed => Ascii("mixed")
  }

  function ActivityOf(cfg: ProcessorConfig, r: Request, reply: Option<Reply>): Activity {
    var status := StatusIn(reply);
    Activity(
      r.command.name, r.command.database, r.command.collection,
      r.actor, r.actor.Some?,
      if r.command.deleteScope.Some? then Some(ScopeName(r.command.deleteScope.value)) else None,
      r.command.deleteStatements,
      if status.Some? then status.value.affected else None,
      if cfg.captureQuery then r.command.query else None,
      r.requestId,
      if reply.Some? then Some(reply.value.message.requestId) else None,
      r.requestBytes,
      if reply.Some? then Some(reply.value.message.wireBytes) else None,
      if reply.Some? then Some(reply.value.durationUs) else None,
      Succeeded(reply),
      if status.Some? then status.value.code else None,
      if status.Some? then status.value.codeName else None,
      r.expectsResponse, r.compressed, r.conn)
  }

  predicate ReportsAuth(c: Command) { IsSessionAuth(c.name) || IsUserManagement(c.name) || c.speculative }

  function AuthOf(r: Request, sessionPrincipal: Option<Bytes>, reply: Option<Reply>): Auth {
    Auth(
      if r.command.mechanism.Some? then r.command.mechanism.value
      else if IsUserManagement(r.command.name) then Ascii("user_management") else Ascii("unknown"),
      if CarriesAuthentication(r.command) then sessionPrincipal else r.target,
      true, Succeeded(reply), r.conn)
  }

  function Completed(cfg: ProcessorConfig, s: State, r: Request, reply: Option<Reply>): (State, seq<Event>) {
    var c := GetConnection(s, r.conn);
    var session := if CarriesAuthentication(r.command) then SessionPrincipal(r, c) else None;
    var s := if CarriesAuthentication(r.command) then PutConnection(s, r.conn, Authenticated(r, c, reply)) else s;
    var activity := ActivityOf(cfg, r, reply);
    var seed := Seed(r.at, r.source, true, r.truncated);
    var first := EventFrom(cfg, s, seed, activity.query.None?, MongodbActivity(activity));
    var s := s.(sequence := NextSequence(s.sequence));
    if ReportsAuth(r.command) then
      var (s', second) := Emit(cfg, s, seed, MongodbAuth(AuthOf(r, session, reply)));
      (s', [first] + second)
    else (s, [first])
  }

  // ---------------------------------------------------------------- messages

  function Saturating(a: nat, b: nat): nat { if a >= b then a - b else 0 }

  /** The requests that survive the time cut. */
  function Kept(pending: map<PendingKey, Request>, now: nat): map<PendingKey, Request> {
    map k | k in pending && pending[k].at >= Saturating(now, PENDING_TTL_NS) :: pending[k]
  }

  /** `prune_pending_requests`. `victim` is the oldest request the hash map's iteration
      finds first; which one that is, is not determined. */
  function Prune(pending: map<PendingKey, Request>, now: nat, victim: PendingKey): map<PendingKey, Request> {
    if |pending| < MAX_PENDING then pending
    else
      var kept := Kept(pending, now);
      if |kept| >= MAX_PENDING then kept - {victim} else kept
  }

  ghost predicate IsOldest(pending: map<PendingKey, Request>, victim: PendingKey) {
    victim in pending && forall k | k in pending :: pending[victim].at <= pending[k].at
  }

  ghost predicate LegalVictim(pending: map<PendingKey, Request>, now: nat, victim: PendingKey) {
    |pending| >= MAX_PENDING && |Kept(pending, now)| >= MAX_PENDING ==> IsOldest(Kept(pending, now), victim)
  }

  /** Where and when a message was seen. */
  datatype Sighting = Sighting(conn: ConnKey, now: nat, truncated: bool, source: byte)

  /** A request seen on a connection: the connection after it, and the request kept. */
  function Arrived(cfg: ProcessorConfig, s: State, at: Sighting, m: Message, c: Command): (State, Request) {
    var target := HashOf(cfg, c);
    var known := GetConnection(s, at.conn);
    var conn := if CarriesAuthentication(c) && target.Some? then known.(pendingAuth := target) else known;
    (PutConnection(s, at.conn, conn),
     Request(c.(principal := None), target, conn.authenticated, at.conn, m.requestId, m.wireBytes, m.compressed,
             !m.moreToCome, at.now, at.truncated, at.source, s.clock))
  }

  function OnMessage(
    cfg: ProcessorConfig, s: State, at: Sighting, m: Message, victim: PendingKey
  ): (State, seq<Event>) {
    if m.responseTo == 0 then
      match m.command
      case None => (s, [])
      case Some(c) =>
        var (s, r) := Arrived(cfg, s, at, m, c);
        if r.expectsResponse then
          (s.(pending := Prune(s.pending, at.now, victim)[PendingKey(at.conn, r.requestId) := r]), [])
        else Completed(cfg, s, r, None)
    else
      var k := PendingKey(at.conn, m.responseTo);
      if k !in s.pending then (s, [])
      else
        var r := s.pending[k];
        Completed(cfg, s.(pending := s.pending - {k}), r, Some(Reply(m, Saturating(at.now, r.at) / 1000)))
  }

  // ---------------------------------------------------------------- connections and processes

  predicate KnownConnectionOperation(op: nat) {
    OP_TCP_CONNECT <= op <= OP_TCP_RETRANSMIT || OP_TCP_HANDSHAKE <= op <= OP_TCP_TIMEOUT
  }

  function WithoutConnection(s: State, conn: ConnKey): State {
    s.(connections := s.connections - {conn},
       pending := map k | k in s.pending && k.conn != conn :: s.pending[k],
       pendingDns := map k | k in s.pendingDns && k.conn != conn :: s.pendingDns[k])
  }

  function WithoutProcess(s: State, tgid: nat): State {
    s.(connections := map k | k in s.connections && k.tgid != tgid :: s.connections[k],
       pending := map k | k in s.pending && k.conn.tgid != tgid :: s.pending[k],
       pendingDns := map k | k in s.pendingDns && k.conn.tgid != tgid :: s.pendingDns[k])
  }

  /** The duration a connection event carries: that of a round trip, and those of a handshake
      and a timeout where they were measured. */
  function ConnectionMicros(op: nat, durationNs: nat): Option<nat> {
    if op == OP_TCP_RTT || ((op == OP_TCP_HANDSHAKE || op == OP_TCP_TIMEOUT) && durationNs > 0)
    then Some(durationNs / 1000) else None
  }

  function OnConnection(cfg: ProcessorConfig, s: State, at: Sighting, op: nat, durationNs: nat): (State, seq<Event>) {
    var conn := at.conn;
    var c := GetConnection(s, conn);
    var c := if op == OP_TCP_RTT then c.(srttUs := Some(SaturateU32(durationNs / 1000)))
             else if op == OP_TCP_RETRANSMIT then c.(retransmits := SaturateU32(c.retransmits + 1))
             else c;
    var s := PutConnection(s, conn, c);
    if !KnownConnectionOperation(op) then (s, [])
    else
      var s := if op == OP_TCP_CLOSE then WithoutConnection(s, conn) else s;
      Emit(cfg, s, Seed(at.now, at.source, false, false), MongodbConnection(op, conn, ConnectionMicros(op, durationNs)))
  }

  function OnLifecycle(cfg: ProcessorConfig, s: State, at: Sighting, op: nat): (State, seq<Event>) {
    if op != OP_PROCESS_EXEC && op != OP_PROCESS_EXIT then (s, [])
    else
      var s := if op == OP_PROCESS_EXIT then WithoutProcess(s, at.conn.tgid) else s;
      Emit(cfg, s, Seed(at.now, at.source, false, false), ProcessLifecycle(op))
  }

  /** `process_latency` and `process_profile`: one event, or none for other operations. */
  function OnLatency(cfg: ProcessorConfig, s: State, at: Sighting, op: nat, durationNs: nat): (State, seq<Event>) {
    var seed := Seed(at.now, at.source, false, false);
    if op == OP_OFFCPU then Emit(cfg, s, seed, Profile(op, Some(durationNs / 1000)))
    else if 1 <= op <= 4 || op == OP_FDATASYNC || op == OP_PAGE_FAULT then Emit(cfg, s, seed, HostIo(op, durationNs / 1000))
    else (s, [])
  }

  function OnProfile(cfg: ProcessorConfig, s: State, at: Sighting, op: nat, durationNs: nat): (State, seq<Event>) {
    if op == OP_CPU_SAMPLE || op == OP_LOCK_WAIT then
      Emit(cfg, s, Seed(at.now, at.source, false, false),
           Profile(op, if op == OP_LOCK_WAIT then Some(durationNs / 1000) else None))
    else (s, [])
  }

  // ---------------------------------------------------------------- DNS

  function PruneDns(pending: map<PendingKey, DnsQuery>, now: nat): map<PendingKey, DnsQuery> {
    if |pending| < MAX_PENDING_DNS then pending
    else
      var kept := map k | k in pending && pending[k].at >= Saturating(now, DNS_TTL_NS) :: pending[k];
      if |kept| >= MAX_PENDING_DNS then map[] else kept
  }

  function OnDns(cfg: ProcessorConfig, s: State, at: Sighting, packet: Bytes): Result<(State, seq<Event>), D.DnsError> {
    var m :- D.DecodeDns(packet);
    var k := PendingKey(at.conn, m.queryId);
    var asked := if m.response && k in s.pendingDns then Some(s.pendingDns[k]) else None;
    var name := OrElse(m.name, if asked.Some? then asked.value.name else None);
    var recordType := OrElse(m.recordType, if asked.Some? then asked.value.recordType else None);
    var duration := if asked.Some? then Some(Saturating(at.now, asked.value.at) / 1000) else None;
    var pendingDns := if m.response then s.pendingDns - {k}
                      else PruneDns(s.pendingDns, at.now)[k := DnsQuery(at.now, m.name, m.recordType)];
    var s := PutConnection(s.(pendingDns := pendingDns), at.conn, GetConnection(s, at.conn));
    Ok(Emit(cfg, s, Seed(at.now, at.source, false, at.truncated),
            Dns(DnsActivity(m.response, m.queryId, name, recordType,
                            if m.response then Some(m.responseCode) else None,
                            if m.response then Some(m.answerCount) else None,
                            duration, at.conn))))
  }

  // ---------------------------------------------------------------- one input

  /** Everything that can change the state, one message of a chunk at a time. */
  datatype Input =
    | MessageIn(at: Sighting, message: Message, victim: PendingKey)
    | ConnectionIn(at: Sighting, operation: nat, durationNs: nat)
    | LifecycleIn(at: Sighting, operation: nat)
    | LatencyIn(at: Sighting, operation: nat, durationNs: nat)
    | ProfileIn(at: Sighting, operation: nat, durationNs: nat)
    | DnsIn(at: Sighting, packet: Bytes)

  function StepOf(cfg: ProcessorConfig, s: State, input: Input): (State, seq<Event>)
  {
    match input
    case MessageIn(at, m, victim) => OnMessage(cfg, s, at, m, victim)
    case ConnectionIn(at, op, durationNs) => OnConnection(cfg, s, at, op, durationNs)
    case LifecycleIn(at, op) => OnLifecycle(cfg, s, at, op)
    case LatencyIn(at, op, durationNs) => OnLatency(cfg, s, at, op, durationNs)
    case ProfileIn(at, op, durationNs) => OnProfile(cfg, s, at, op, durationNs)
    case DnsIn(at, packet) => (match OnDns(cfg, s, at, packet) case Ok(r) => r case Err(_) => (s, []))
  }

  function Step(cfg: ProcessorConfig, s: State, input: Input): (State, seq<Event>)
  {
    var (s', events) := StepOf(cfg, s, input);
    (s'.(clock := s.clock + 1), events)
  }

  /** Inputs the environment can produce in a state. */
  ghost predicate Possible(cfg: ProcessorConfig, s: State, input: Input) {
    match input
    case MessageIn(at, m, victim) =>
      m.responseTo == 0 && m.command.Some? && !m.moreToCome ==> LegalVictim(s.pending, at.now, victim)
    case _ => true
  }

  /** The state after a run, from the initial state. */
  ghost function After(cfg: ProcessorConfig, h: seq<Input>): State
    requires Run(cfg, h)
    decreases |h|, 1
  {
    if h == [] then INITIAL else Step(cfg, After(cfg, h[..|h| - 1]), h[|h| - 1]).0
  }

  ghost predicate Run(cfg: ProcessorConfig, h: seq<Input>)
    decreases |h|, 0
  {
    h != [] ==> Run(cfg, h[..|h| - 1]) && Possible(cfg, After(cfg, h[..|h| - 1]), h[|h| - 1])
  }

  /** The events the last input of a run emits. */
  ghost function Emitted(cfg: ProcessorConfig, h: seq<Input>): seq<Event>
    requires Run(cfg, h) && h != []
  {
    Step(cfg, After(cfg, h[..|h| - 1]), h[|h| - 1]).1
  }

  lemma PruneShrinks(pending: map<PendingKey, Request>, now: nat, victim: PendingKey)
    ensures Prune(pending, now, victim).Keys <= pending.Keys
    ensures forall k | k in Prune(pending, now, victim) :: Prune(pending, now, victim)[k] == pending[k]
  {
  }

  lemma RunLonger(cfg: ProcessorConfig, h: seq<Input>, x: Input)
    requires Run(cfg, h) && Possible(cfg, After(cfg, h), x)
    ensures Run(cfg, h + [x]) && After(cfg, h + [x]) == Step(cfg, After(cfg, h), x).0
  {
    hide Step, Possible;
    assert (h + [x])[..|h|] == h;
  }

  lemma {:induction false} RunPrefix(cfg: ProcessorConfig, h: seq<Input>, n: nat)
    requires Run(cfg, h) && n <= |h|
    ensures Run(cfg, h[..n])
    decreases |h|
  {
    hide Step, Possible;
    if n == |h| {
      assert h[..n] == h;
    } else {
      RunPrefix(cfg, h[..|h| - 1], n);
      assert h[..|h| - 1][..n] == h[..n];
    }
  }
}
