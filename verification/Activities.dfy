/** What the processor reports, field by field, from the request and the response it saw:
    stated over every run, without the functions that build the events. */
module Activities {
  import opened Primitives
  import opened Json
  import opened Deletes
  import opened Wire
  import opened Schema
  import opened Processor
  import opened Attribution
  import PF = PrintedFrames
  import T = BsonTree

  // ---------------------------------------------------------------- what an event must say

  function StatusSeen(answer: Option<Input>): Option<Status> {
    if answer.Some? && answer.value.MessageIn? then answer.value.message.status else None
  }

  predicate ScopeText(scope: Option<DeleteScope>, text: Option<Bytes>) {
    match scope
    case None => text.None?
    case Some(Single) => text == Some(Ascii("single"))
    case Some(Multi) => text == Some(Ascii("multi"))
    case Some(Mixed) => text == Some(Ascii("mixed"))
  }

  /** Microseconds from one nanosecond reading to a later one. */
  function Micros(from: nat, to: nat): nat { if to < from then 0 else (to - from) / 1000 }

  /** The activity tells of this request, and of this response where there is one. The
      command's content goes out only where that is configured. */
  ghost predicate ActivityReads(cfg: ProcessorConfig, asked: Input, answer: Option<Input>, a: Activity) {
    && asked.MessageIn? && asked.message.command.Some? && (answer.Some? ==> answer.value.MessageIn?)
    && var c, status := asked.message.command.value, StatusSeen(answer);
       && a.command == c.name && a.database == c.database && a.collection == c.collection
       && a.query == (if cfg.captureQuery then c.query else None)
       && ScopeText(c.deleteScope, a.deleteScope) && a.deleteStatements == c.deleteStatements
       && a.principalHashed == a.principal.Some?
       && a.requestId == asked.message.requestId && a.requestBytes == asked.message.wireBytes
       && a.compressed == asked.message.compressed && a.expectsResponse == !asked.message.moreToCome
       && a.connection == asked.at.conn
       && a.responseId == (if answer.Some? then Some(answer.value.message.requestId) else None)
       && a.responseBytes == (if answer.Some? then Some(answer.value.message.wireBytes) else None)
       && a.durationUs == (if answer.Some? then Some(Micros(asked.at.now, answer.value.at.now)) else None)
       && a.succeeded == (if status.Some? then status.value.ok else None)
       && a.errorCode == (if status.Some? then status.value.code else None)
       && a.errorName == (if status.Some? then status.value.codeName else None)
       && a.affectedDocuments == (if status.Some? then status.value.affected else None)
  }

  /** The authentication event tells of the same, and of the session's principal: the one
      the request named, or else the one that pended on the connection. */
  ghost predicate AuthReads(
    cfg: ProcessorConfig, asked: Input, answer: Option<Input>, pends: Option<Bytes>, a: Auth
  ) {
    && asked.MessageIn? && asked.message.command.Some?
    && var c, status := asked.message.command.value, StatusSeen(answer);
       && a.mechanism == (if c.mechanism.Some? then c.mechanism.value
                          else if PF.TakesUser(c.name) then Ascii("user_management") else Ascii("unknown"))
       && a.principal == (if TakesPart(c) && Name(cfg, c).None? then pends else Name(cfg, c))
       && a.principalHashed
       && a.succeeded == (if status.Some? then status.value.ok else None)
       && a.connection == asked.at.conn
  }

  /** The frame of an event: whose it is, when and how well it was seen, and its number. What
      is cut is partial, what is read off a stream complete, and the rest inferred. */
  ghost predicate FrameReads(
    cfg: ProcessorConfig, at: Sighting, stream: bool, truncated: bool, number: nat, metadataOnly: bool, e: Event
  ) {
    && e.schemaVersion == 1 && e.tenancy == cfg.tenancy && e.monotonicNs == at.now
    && e.eventId == Ascii("evt-") + T.HexText(cfg.eventDigest(cfg.sensorId, at.now, number))
    && e.capture.sensorId == cfg.sensorId && e.capture.nodeName == cfg.nodeName && e.capture.source == at.source
    && e.capture.truncated == truncated && e.capture.metadataOnly == metadataOnly
    && (e.capture.confidence == if truncated then Partial else if stream then Complete else Inferred)
    && e.kubernetes.None? && e.identity.None?
  }

  /** An event about authentication follows for session and user-management commands. */
  predicate ReportsLogin(c: Command) { TakesPart(c) || PF.TakesUser(c.name) }

  /** The events report this request and this response. */
  ghost predicate Reported(
    cfg: ProcessorConfig, asked: Input, answer: Option<Input>, pends: Option<Bytes>, number: nat, es: seq<Event>
  ) {
    && asked.MessageIn? && asked.message.command.Some?
    && |es| == (if ReportsLogin(asked.message.command.value) then 2 else 1)
    && ActivityEvent(cfg, asked, answer, (number + 1) % 0x1_0000_0000_0000_0000, es[0])
    && (|es| == 2 ==> AuthEvent(cfg, asked, answer, pends, (number + 2) % 0x1_0000_0000_0000_0000, es[1]))
  }

  ghost predicate ActivityEvent(cfg: ProcessorConfig, asked: Input, answer: Option<Input>, number: nat, e: Event) {
    && e.payload.MongodbActivity? && ActivityReads(cfg, asked, answer, e.payload.activity)
    && FrameReads(cfg, asked.at, true, asked.at.truncated, number, e.payload.activity.query.None?, e)
  }

  ghost predicate AuthEvent(
    cfg: ProcessorConfig, asked: Input, answer: Option<Input>, pends: Option<Bytes>, number: nat, e: Event
  ) {
    && e.payload.MongodbAuth? && AuthReads(cfg, asked, answer, pends, e.payload.auth)
    && FrameReads(cfg, asked.at, true, asked.at.truncated, number, true, e)
  }

  // ---------------------------------------------------------------- completions

  lemma LoginWords(c: Command)
    ensures ReportsAuth(c) <==> ReportsLogin(c)
    ensures IsUserManagement(c.name) <==> PF.TakesUser(c.name)
  {
    hide Spelled, Lower, HasPrincipalArgument, PF.TakesUser;
    SpelledFolds(c.name, "saslstart");
    SpelledFolds(c.name, "saslcontinue");
    SpelledFolds(c.name, "authenticate");
    SpelledFolds(c.name, "getnonce");
    PF.UserNames(c.name);
  }

  lemma StrippedWords(c: Command)
    ensures ReportsAuth(c.(principal := None)) <==> ReportsLogin(c)
    ensures IsUserManagement(c.(principal := None).name) <==> PF.TakesUser(c.name)
  {
    hide ReportsAuth, Spelled, PF.TakesUser, IsUserManagement;
    LoginWords(c.(principal := None));
  }

  lemma ActivityBuilt(cfg: ProcessorConfig, r: Request, asked: Input, answer: Option<Input>)
    requires RequestCopies(cfg, asked, r) && (answer.Some? ==> answer.value.MessageIn?)
    ensures var reply := if answer.Some? then Some(Reply(answer.value.message, Saturating(answer.value.at.now, r.at) / 1000))
                         else None;
            ActivityReads(cfg, asked, answer, ActivityOf(cfg, r, reply))
  {
  }

  lemma AuthBuilt(cfg: ProcessorConfig, r: Request, asked: Input, answer: Option<Input>, pends: Option<Bytes>)
    requires RequestCopies(cfg, asked, r) && (answer.Some? ==> answer.value.MessageIn?)
    ensures var reply := if answer.Some? then Some(Reply(answer.value.message, Saturating(answer.value.at.now, r.at) / 1000))
                         else None;
            var session := if CarriesAuthentication(r.command) then OrElse(r.target, pends) else None;
            AuthReads(cfg, asked, answer, pends, AuthOf(r, session, reply))
  {
    hide TakesPart, CarriesAuthentication, ExchangeCompleted, Ends, Name, IsUserManagement, PF.TakesUser, ReportsAuth, ReportsLogin;
    SameExchange(cfg, asked.message.command.value, None);
    StrippedWords(asked.message.command.value);
  }

  lemma FrameBuilt(cfg: ProcessorConfig, s: State, seed: Seed, at: Sighting, metadataOnly: bool, payload: Payload)
    requires seed.at == at.now && seed.source == at.source
    ensures FrameReads(cfg, at, seed.complete, seed.truncated, (s.sequence + 1) % 0x1_0000_0000_0000_0000, metadataOnly,
                       EventFrom(cfg, s, seed, metadataOnly, payload))
    ensures EventFrom(cfg, s, seed, metadataOnly, payload).payload == payload
  {
    hide EncodeHex, T.HexText;
    T.HexDigits(cfg.eventDigest(cfg.sensorId, seed.at, NextSequence(s.sequence)));
  }

  /** The connection table after a completion, and the events one by one. */
  lemma CompletedIs(cfg: ProcessorConfig, s: State, r: Request, reply: Option<Reply>)
    ensures var c := GetConnection(s, r.conn);
            var session := if CarriesAuthentication(r.command) then OrElse(r.target, c.pendingAuth) else None;
            var seed := Seed(r.at, r.source, true, r.truncated);
            var activity := ActivityOf(cfg, r, reply);
            var es := Completed(cfg, s, r, reply).1;
            && |es| == (if ReportsAuth(r.command) then 2 else 1)
            && es[0] == EventFrom(cfg, s, seed, activity.query.None?, MongodbActivity(activity))
            && (|es| == 2 ==> es[1] == EventFrom(cfg, s.(sequence := NextSequence(s.sequence)), seed, true,
                                                 MongodbAuth(AuthOf(r, session, reply))))
  {
    hide ActivityOf, AuthOf, CarriesAuthentication, ReportsAuth, Authenticated, NextSequence, EncodeHex;
  }

  lemma CompletionReported(cfg: ProcessorConfig, s: State, r: Request, asked: Input, answer: Option<Input>)
    requires RequestCopies(cfg, asked, r) && (answer.Some? ==> answer.value.MessageIn?)
    ensures var reply := if answer.Some? then Some(Reply(answer.value.message, Saturating(answer.value.at.now, r.at) / 1000))
                         else None;
            Reported(cfg, asked, answer, GetConnection(s, r.conn).pendingAuth, s.sequence, Completed(cfg, s, r, reply).1)
  {
    hide Completed, ActivityOf, AuthOf, EventFrom, CarriesAuthentication, ReportsAuth, ReportsLogin, ActivityEvent, AuthEvent,
      Name, NextSequence;
    NextTwo(s.sequence);
    var reply := if answer.Some? then Some(Reply(answer.value.message, Saturating(answer.value.at.now, r.at) / 1000)) else None;
    CompletedIs(cfg, s, r, reply);
    FirstEvent(cfg, s, r, asked, answer);
    SecondEvent(cfg, s.(sequence := NextSequence(s.sequence)), r, asked, answer, GetConnection(s, r.conn).pendingAuth);
    StrippedWords(asked.message.command.value);
  }

  lemma FirstEvent(cfg: ProcessorConfig, s: State, r: Request, asked: Input, answer: Option<Input>)
    requires RequestCopies(cfg, asked, r) && (answer.Some? ==> answer.value.MessageIn?)
    ensures var reply := if answer.Some? then Some(Reply(answer.value.message, Saturating(answer.value.at.now, r.at) / 1000))
                         else None;
            var activity := ActivityOf(cfg, r, reply);
            ActivityEvent(cfg, asked, answer, (s.sequence + 1) % 0x1_0000_0000_0000_0000,
                          EventFrom(cfg, s, Seed(r.at, r.source, true, r.truncated), activity.query.None?, MongodbActivity(activity)))
  {
    hide ActivityOf, EventFrom, ActivityReads, FrameReads, Name;
    var reply := if answer.Some? then Some(Reply(answer.value.message, Saturating(answer.value.at.now, r.at) / 1000)) else None;
    var activity := ActivityOf(cfg, r, reply);
    ActivityBuilt(cfg, r, asked, answer);
    FrameBuilt(cfg, s, Seed(r.at, r.source, true, r.truncated), asked.at, activity.query.None?, MongodbActivity(activity));
  }

  lemma SecondEvent(cfg: ProcessorConfig, s: State, r: Request, asked: Input, answer: Option<Input>, pends: Option<Bytes>)
    requires RequestCopies(cfg, asked, r) && (answer.Some? ==> answer.value.MessageIn?)
    ensures var reply := if answer.Some? then Some(Reply(answer.value.message, Saturating(answer.value.at.now, r.at) / 1000))
                         else None;
            var session := if CarriesAuthentication(r.command) then OrElse(r.target, pends) else None;
            AuthEvent(cfg, asked, answer, pends, (s.sequence + 1) % 0x1_0000_0000_0000_0000,
                      EventFrom(cfg, s, Seed(r.at, r.source, true, r.truncated), true, MongodbAuth(AuthOf(r, session, reply))))
  {
    hide AuthOf, EventFrom, AuthReads, FrameReads, Name, CarriesAuthentication;
    var reply := if answer.Some? then Some(Reply(answer.value.message, Saturating(answer.value.at.now, r.at) / 1000)) else None;
    var session := if CarriesAuthentication(r.command) then OrElse(r.target, pends) else None;
    AuthBuilt(cfg, r, asked, answer, pends);
    FrameBuilt(cfg, s, Seed(r.at, r.source, true, r.truncated), asked.at, true, MongodbAuth(AuthOf(r, session, reply)));
  }

  lemma NextTwo(n: nat)
    ensures NextSequence(n) == (n + 1) % 0x1_0000_0000_0000_0000
    ensures NextSequence(NextSequence(n)) == (n + 2) % 0x1_0000_0000_0000_0000
  {
  }

  // ---------------------------------------------------------------- runs

  /** What a message makes the processor report, in every run: a response that answers a
      stored request, that request and itself; a request that asks for no response, itself;
      any other message, nothing. */
  ghost predicate MessageReported(cfg: ProcessorConfig, h: seq<Input>, x: Input, es: seq<Event>)
    requires Run(cfg, h) && x.MessageIn?
  {
    var s := After(cfg, h);
    var pends := GetConnection(s, x.at.conn).pendingAuth;
    if x.message.responseTo != 0 then
      var k := PendingKey(x.at.conn, x.message.responseTo);
      if k in s.pending then
        s.pending[k].origin < |h| && Reported(cfg, h[s.pending[k].origin], Some(x), pends, s.sequence, es)
      else es == []
    else if x.message.command.Some? && x.message.moreToCome then Reported(cfg, x, None, pends, s.sequence, es)
    else es == []
  }

  lemma MessageReports(cfg: ProcessorConfig, h: seq<Input>, x: Input)
    requires Run(cfg, h) && x.MessageIn?
    ensures MessageReported(cfg, h, x, Step(cfg, After(cfg, h), x).1)
  {
    hide Run, After, Completed, Prune, Arrived, ConnectionTraced, RequestCopies, CreditedName, Reported;
    RunTraced(cfg, h);
    var s, m := After(cfg, h), x.message;
    if m.responseTo != 0 {
      var k := PendingKey(x.at.conn, m.responseTo);
      if k in s.pending {
        var r := s.pending[k];
        assert RequestTraced(cfg, h, k, r);
        CompletionReported(cfg, s.(pending := s.pending - {k}), r, h[r.origin], Some(x));
        SameConnection(s, s.(pending := s.pending - {k}), r.conn);
      }
    } else if m.command.Some? {
      ArrivalCopies(cfg, s, x);
      if m.moreToCome {
        var (t, r) := Arrived(cfg, s, x.at, m, m.command.value);
        CompletionReported(cfg, t, r, x, None);
        PendsThere(cfg, s, x, Completed(cfg, t, r, None).1);
      }
    }
  }

  lemma SameConnection(s: State, t: State, conn: ConnKey)
    requires s.connections == t.connections
    ensures GetConnection(s, conn) == GetConnection(t, conn)
  {
  }

  lemma ArrivalCopies(cfg: ProcessorConfig, s: State, x: Input)
    requires x.MessageIn? && x.message.command.Some?
    ensures var (t, r) := Arrived(cfg, s, x.at, x.message, x.message.command.value);
            && RequestCopies(cfg, x, r) && r.conn == x.at.conn && t.sequence == s.sequence
            && r.expectsResponse == !x.message.moreToCome
  {
    hide CarriesAuthentication;
  }

  /** The request's own name comes first, so it does not matter that it pends already. */
  lemma PendsThere(cfg: ProcessorConfig, s: State, x: Input, es: seq<Event>)
    requires x.MessageIn? && x.message.command.Some?
    ensures var (t, r) := Arrived(cfg, s, x.at, x.message, x.message.command.value);
            Reported(cfg, x, None, GetConnection(t, x.at.conn).pendingAuth, t.sequence, es)
            ==> Reported(cfg, x, None, GetConnection(s, x.at.conn).pendingAuth, s.sequence, es)
  {
    hide CarriesAuthentication, HashOf, Name, TakesPart, ReportsLogin, ActivityReads, FrameReads, PF.TakesUser;
    AuthWords(cfg, x.message.command.value, None);
  }

  /** Every event advances the number by one. */
  lemma StepCounts(cfg: ProcessorConfig, s: State, x: Input)
    requires s.sequence < 0x1_0000_0000_0000_0000
    ensures StepOf(cfg, s, x).0.sequence == (s.sequence + |StepOf(cfg, s, x).1|) % 0x1_0000_0000_0000_0000
  {
    hide HashOf, CarriesAuthentication, Prune, EventFrom, Completed, D.DecodeDns, PruneDns, SaturateU32, KnownConnectionOperation,
      Arrived;
    if x.MessageIn? {
      var m := x.message;
      if m.responseTo == 0 && m.command.Some? {
        ArrivalCopies(cfg, s, x);
        var (t, r) := Arrived(cfg, s, x.at, m, m.command.value);
        CompletedCounts(cfg, t, r, None);
      } else if m.responseTo != 0 && PendingKey(x.at.conn, m.responseTo) in s.pending {
        var k := PendingKey(x.at.conn, m.responseTo);
        var r := s.pending[k];
        CompletedCounts(cfg, s.(pending := s.pending - {k}), r, Some(Reply(m, Saturating(x.at.now, r.at) / 1000)));
      }
    }
  }

  lemma CompletedCounts(cfg: ProcessorConfig, s: State, r: Request, reply: Option<Reply>)
    ensures var (t, es) := Completed(cfg, s, r, reply);
            t.sequence == (s.sequence + |es|) % 0x1_0000_0000_0000_0000
  {
    hide ActivityOf, AuthOf, EventFrom, CarriesAuthentication, ReportsAuth, Authenticated, NextSequence;
    NextTwo(s.sequence);
  }

  /** All the events of a run. */
  ghost function CountEvents(cfg: ProcessorConfig, h: seq<Input>): nat
    requires Run(cfg, h)
    decreases |h|
  {
    if h == [] then 0 else CountEvents(cfg, h[..|h| - 1]) + |Emitted(cfg, h)|
  }

  /** The number is that of the events emitted so far, in 64 bits: events are numbered one
      after the other, whatever inputs they come from. */
  lemma {:induction false} EventsNumbered(cfg: ProcessorConfig, h: seq<Input>)
    requires Run(cfg, h)
    ensures After(cfg, h).sequence == CountEvents(cfg, h) % 0x1_0000_0000_0000_0000
    decreases |h|
  {
    hide StepOf;
    if h == [] {
    } else {
      EventsNumbered(cfg, h[..|h| - 1]);
      StepCounts(cfg, After(cfg, h[..|h| - 1]), h[|h| - 1]);
    }
  }
}
