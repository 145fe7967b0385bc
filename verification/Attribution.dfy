/** Attribution over every run of the event processor: the principal of an activity is the
    one credited by the latest successful authentication on the same connection since it
    was last closed or its process last exited, and is absent when there was none. */
module Attribution {
  import opened Primitives
  import opened Wire
  import opened Schema
  import opened Processor

  // ---------------------------------------------------------------- facts about a history

  /** The input forgets the connection. */
  predicate Resets(x: Input, conn: ConnKey) {
    || (x.ConnectionIn? && x.operation == OP_TCP_CLOSE && x.at.conn == conn)
    || (x.LifecycleIn? && x.operation == OP_PROCESS_EXIT && x.at.conn.tgid == conn.tgid)
  }

  ghost predicate NoReset(h: seq<Input>, conn: ConnKey, from: nat, to: nat) {
    to <= |h| && forall i :: from <= i < to ==> !Resets(h[i], conn)
  }

  /** A request carrying a command, on the connection. */
  predicate IsRequest(x: Input, conn: ConnKey) {
    x.MessageIn? && x.at.conn == conn && x.message.responseTo == 0 && x.message.command.Some?
  }

  /** The commands that take part in authentication: the four of a session, in any case,
      and whatever carries a speculative exchange. */
  predicate TakesPart(c: Command) {
    || c.speculative
    || Spelled(c.name, "saslstart") || Spelled(c.name, "saslcontinue") || Spelled(c.name, "authenticate")
    || Spelled(c.name, "getnonce")
  }

  /** A successful response ends the exchange: always that of `authenticate`, in the SASL
      and speculative exchanges when it says that they are done, and no other. */
  predicate Ends(c: Command, done: Option<bool>) {
    if c.speculative || Spelled(c.name, "saslstart") || Spelled(c.name, "saslcontinue") then done == Some(true)
    else Spelled(c.name, "authenticate")
  }

  /** The principal a command names, hashed with the salt where there is one. */
  function Name(cfg: ProcessorConfig, c: Command): Option<Bytes> {
    if cfg.salt.None? || c.principal.None? then None else Some(cfg.hashPrincipal(cfg.salt.value, c.principal.value))
  }

  /** The classifiers of the processor are these. */
  lemma AuthWords(cfg: ProcessorConfig, c: Command, done: Option<bool>)
    ensures CarriesAuthentication(c) <==> TakesPart(c)
    ensures ExchangeCompleted(c, done) <==> Ends(c, done)
    ensures HashOf(cfg, c) == Name(cfg, c)
  {
    hide Spelled, Lower;
    SpelledFolds(c.name, "saslstart");
    SpelledFolds(c.name, "saslcontinue");
    SpelledFolds(c.name, "authenticate");
    SpelledFolds(c.name, "getnonce");
  }

  /** A request that takes part in authentication. */
  predicate IsAuthRequest(x: Input, conn: ConnKey) {
    IsRequest(x, conn) && TakesPart(x.message.command.value)
  }

  /** ... and names a principal. */
  predicate NamesSomeone(cfg: ProcessorConfig, x: Input, conn: ConnKey) {
    IsAuthRequest(x, conn) && Name(cfg, x.message.command.value).Some?
  }

  /** ... and this (hashed) principal in particular. */
  predicate NamesPrincipal(cfg: ProcessorConfig, x: Input, conn: ConnKey, p: Bytes) {
    NamesSomeone(cfg, x, conn) && Name(cfg, x.message.command.value) == Some(p)
  }

  function OkOf(x: Input): Option<bool>
    requires x.MessageIn?
  {
    var status :- x.message.status;
    status.ok
  }

  function DoneOf(x: Input): Option<bool>
    requires x.MessageIn?
  {
    var status :- x.message.status;
    status.authDone
  }

  ghost function StateOf(cfg: ProcessorConfig, h: seq<Input>): State {
    if Run(cfg, h) then After(cfg, h) else INITIAL
  }

  /** The authentication request that `x` answers, when `x` is the response to one that
      is still stored after `h`. */
  function AnsweredAuth(s: State, h: seq<Input>, x: Input, conn: ConnKey): Option<nat> {
    if x.MessageIn? && x.at.conn == conn && x.message.responseTo != 0 then
      var k := PendingKey(conn, x.message.responseTo);
      if k in s.pending && s.pending[k].origin < |h| && IsAuthRequest(h[s.pending[k].origin], conn)
      then Some(s.pending[k].origin) else None
    else None
  }

  /** The response at `j` answers authentication request `r`. */
  ghost predicate Answers(cfg: ProcessorConfig, h: seq<Input>, conn: ConnKey, r: nat, j: nat) {
    && j < |h| && AnsweredAuth(StateOf(cfg, h[..j]), h[..j], h[j], conn) == Some(r)
  }

  /** ... and ends its exchange with success. */
  ghost predicate Installs(cfg: ProcessorConfig, h: seq<Input>, conn: ConnKey, r: nat, j: nat) {
    && r < j && Answers(cfg, h, conn, r, j) && IsAuthRequest(h[r], conn) && h[j].MessageIn?
    && OkOf(h[j]) == Some(true) && Ends(h[r].message.command.value, DoneOf(h[j]))
  }

  /** ... or with failure. */
  ghost predicate Fails(cfg: ProcessorConfig, h: seq<Input>, conn: ConnKey, r: nat, j: nat) {
    r < j && Answers(cfg, h, conn, r, j) && h[j].MessageIn? && OkOf(h[j]) == Some(false)
  }

  ghost predicate Installing(cfg: ProcessorConfig, h: seq<Input>, conn: ConnKey, j: nat) {
    exists r :: Installs(cfg, h, conn, r, j)
  }

  ghost predicate Concludes(cfg: ProcessorConfig, h: seq<Input>, conn: ConnKey, j: nat) {
    exists r :: Installs(cfg, h, conn, r, j) || Fails(cfg, h, conn, r, j)
  }

  /** Before `to`, request `i` was the last to name a principal, and nothing has reset the
      connection or concluded an exchange since. */
  ghost predicate Pends(cfg: ProcessorConfig, h: seq<Input>, conn: ConnKey, i: nat, to: nat) {
    && i < to <= |h| && NamesSomeone(cfg, h[i], conn) && NoReset(h, conn, i, to)
    && (forall j :: i < j < to ==> !NamesSomeone(cfg, h[j], conn))
    && (forall j :: i < j < to ==> !Concludes(cfg, h, conn, j))
  }

  /** Before `to`, the response at `j` was the last to end an exchange with success since
      the connection was reset. It answered request `r` and credits the principal named
      at `i`: by `r` itself, or, when `r` names none, by the last request that did. */
  ghost predicate Credits(cfg: ProcessorConfig, h: seq<Input>, conn: ConnKey, i: nat, r: nat, j: nat, to: nat) {
    && j < to <= |h| && Installs(cfg, h, conn, r, j) && NoReset(h, conn, j, to)
    && (forall later :: j < later < to ==> !Installing(cfg, h, conn, later))
    && (if NamesSomeone(cfg, h[r], conn) then i == r else Pends(cfg, h, conn, i, j))
  }

  /** Some response credits this principal. */
  ghost predicate Justified(cfg: ProcessorConfig, h: seq<Input>, conn: ConnKey, p: Bytes, to: nat) {
    exists i: nat, r: nat, j: nat :: i < |h| && Credits(cfg, h, conn, i, r, j, to) && NamesPrincipal(cfg, h[i], conn, p)
  }

  // ---------------------------------------------------------------- the authentication state of a history

  datatype Credit = Credit(i: nat, r: nat, j: nat)

  /** Positions: the request whose name pends, and the credit in force. */
  datatype AuthTrace = AuthTrace(named: Option<nat>, credit: Option<Credit>)

  const NO_TRACE := AuthTrace(None, None)

  function TraceStep(
    cfg: ProcessorConfig, h: seq<Input>, s: State, x: Input, conn: ConnKey, t: AuthTrace
  ): AuthTrace {
    if Resets(x, conn) then NO_TRACE
    else if NamesSomeone(cfg, x, conn) then t.(named := Some(|h|))
    else
      match AnsweredAuth(s, h, x, conn)
      case None => t
      case Some(r) =>
        if OkOf(x) == Some(false) then t.(named := None)
        else if OkOf(x) == Some(true) && Ends(h[r].message.command.value, DoneOf(x)) then
          var i := if NamesSomeone(cfg, h[r], conn) then Some(r) else t.named;
          AuthTrace(None, if i.Some? then Some(Credit(i.value, r, |h|)) else None)
        else t
  }

  ghost function Trace(cfg: ProcessorConfig, h: seq<Input>, conn: ConnKey): AuthTrace
    decreases |h|
  {
    if h == [] then NO_TRACE
    else
      var init := h[..|h| - 1];
      TraceStep(cfg, init, StateOf(cfg, init), h[|h| - 1], conn, Trace(cfg, init, conn))
  }

  function NameAt(cfg: ProcessorConfig, h: seq<Input>, i: nat): Option<Bytes> {
    if i < |h| && h[i].MessageIn? && h[i].message.command.Some? then Name(cfg, h[i].message.command.value) else None
  }

  ghost function CreditedName(cfg: ProcessorConfig, h: seq<Input>, conn: ConnKey): Option<Bytes> {
    var t := Trace(cfg, h, conn);
    if t.credit.Some? then NameAt(cfg, h, t.credit.value.i) else None
  }

  // ---------------------------------------------------------------- the invariant

  /** The two names kept for a connection are those at the traced positions. */
  ghost predicate ConnectionMatches(cfg: ProcessorConfig, h: seq<Input>, conn: ConnKey, c: Connection, t: AuthTrace) {
    && (t.named.Some? ==> t.named.value < |h| && NamesSomeone(cfg, h[t.named.value], conn))
    && (t.credit.Some? ==> t.credit.value.i < |h| && NamesSomeone(cfg, h[t.credit.value.i], conn))
    && c.pendingAuth == (if t.named.Some? then NameAt(cfg, h, t.named.value) else None)
    && c.authenticated == (if t.credit.Some? then NameAt(cfg, h, t.credit.value.i) else None)
  }

  ghost predicate ConnectionTraced(cfg: ProcessorConfig, h: seq<Input>, s: State, conn: ConnKey) {
    ConnectionMatches(cfg, h, conn, GetConnection(s, conn), Trace(cfg, h, conn))
  }

  /** A stored request is the stripped copy of the one that arrived at its origin, with
      the principal that was credited then. */
  ghost predicate RequestTraced(cfg: ProcessorConfig, h: seq<Input>, k: PendingKey, r: Request) {
    && r.origin < |h| && IsRequest(h[r.origin], k.conn) && NoReset(h, k.conn, r.origin, |h|)
    && r.conn == k.conn && r.requestId == k.id
    && RequestCopies(cfg, h[r.origin], r)
    && r.expectsResponse
    && r.actor == CreditedName(cfg, h[..r.origin], k.conn)
  }

  predicate RequestCopies(cfg: ProcessorConfig, x: Input, r: Request) {
    && x.MessageIn? && x.message.command.Some?
    && r.requestId == x.message.requestId
    && r.expectsResponse == !x.message.moreToCome
    && r.command == x.message.command.value.(principal := None)
    && r.target == Name(cfg, x.message.command.value)
    && r.requestBytes == x.message.wireBytes && r.compressed == x.message.compressed
    && r.at == x.at.now && r.truncated == x.at.truncated && r.source == x.at.source && r.conn == x.at.conn
  }

  ghost predicate Traced(cfg: ProcessorConfig, h: seq<Input>, s: State) {
    && s.clock == |h|
    && s == StateOf(cfg, h)
    && (forall conn :: ConnectionTraced(cfg, h, s, conn))
    && (forall k | k in s.pending :: RequestTraced(cfg, h, k, s.pending[k]))
  }

  // ---------------------------------------------------------------- longer histories

  lemma TraceLonger(cfg: ProcessorConfig, h: seq<Input>, x: Input, conn: ConnKey)
    ensures Trace(cfg, h + [x], conn) == TraceStep(cfg, h, StateOf(cfg, h), x, conn, Trace(cfg, h, conn))
  {
    hide TraceStep, StateOf;
    assert (h + [x])[..|h|] == h;
  }

  /** The match is kept when the kept names and the positions change together. */
  lemma MatchLonger(cfg: ProcessorConfig, h: seq<Input>, x: Input, conn: ConnKey, c: Connection, t: AuthTrace)
    requires ConnectionMatches(cfg, h, conn, c, t)
    ensures ConnectionMatches(cfg, h + [x], conn, c, t)
  {
    hide NamesSomeone, Name;
  }

  lemma RequestLonger(cfg: ProcessorConfig, h: seq<Input>, x: Input, k: PendingKey, r: Request)
    requires RequestTraced(cfg, h, k, r) && !Resets(x, k.conn)
    ensures RequestTraced(cfg, h + [x], k, r)
  {
    hide CreditedName, RequestCopies, Resets, IsRequest;
    assert (h + [x])[..r.origin] == h[..r.origin];
  }

  // ---------------------------------------------------------------- what a step does to the two tables

  lemma CompletedTables(cfg: ProcessorConfig, s: State, r: Request, reply: Option<Reply>)
    ensures var t := Completed(cfg, s, r, reply).0;
            && t.pending == s.pending && t.clock == s.clock
            && t.connections == (if CarriesAuthentication(r.command)
                                 then s.connections[r.conn := Authenticated(r, GetConnection(s, r.conn), reply)]
                                 else s.connections)
  {
    hide Authenticated, CarriesAuthentication, ActivityOf, EventFrom, AuthOf, ReportsAuth, NextSequence;
  }

  /** The activity a completion reports, and nothing else carries one. */
  lemma CompletedEvents(cfg: ProcessorConfig, s: State, r: Request, reply: Option<Reply>)
    ensures var es := Completed(cfg, s, r, reply).1;
            && 1 <= |es| && es[0].payload == MongodbActivity(ActivityOf(cfg, r, reply))
            && (forall i :: 1 <= i < |es| ==> es[i].payload.MongodbAuth?)
  {
    hide Authenticated, CarriesAuthentication, ActivityOf, AuthOf, ReportsAuth, NextSequence, Succeeded, SessionPrincipal;
  }

  // ---------------------------------------------------------------- requests

  lemma RequestArrives(cfg: ProcessorConfig, h: seq<Input>, s: State, at: Sighting, m: Message, victim: PendingKey)
    requires Traced(cfg, h, s) && m.responseTo == 0 && m.command.Some?
    ensures var x := MessageIn(at, m, victim);
            var (t, r) := Arrived(cfg, s, at, m, m.command.value);
            && t.pending == s.pending && t.clock == s.clock
            && (forall conn :: ConnectionTraced(cfg, h + [x], t, conn))
            && RequestCopies(cfg, x, r) && r.conn == at.conn && r.origin == |h|
            && r.actor == CreditedName(cfg, h, at.conn)
  {
    hide HashOf, CarriesAuthentication, StateOf, Trace, RequestTraced, TakesPart, Name;
    AuthWords(cfg, m.command.value, None);
    var x := MessageIn(at, m, victim);
    var (t, r) := Arrived(cfg, s, at, m, m.command.value);
    assert ConnectionTraced(cfg, h, s, at.conn);
    forall conn ensures ConnectionTraced(cfg, h + [x], t, conn) {
      assert ConnectionTraced(cfg, h, s, conn);
      TraceLonger(cfg, h, x, conn);
      assert (h + [x])[|h|] == x;
      MatchLonger(cfg, h, x, conn, GetConnection(s, conn), Trace(cfg, h, conn));
    }
  }

  // ---------------------------------------------------------------- responses

  /** A response moves the kept names and the positions together. */
  lemma ResponseMatches(
    cfg: ProcessorConfig, h: seq<Input>, s: State, c: Connection, k: PendingKey, r: Request, x: Input
  )
    requires s == StateOf(cfg, h) && k in s.pending && s.pending[k] == r && RequestTraced(cfg, h, k, r)
    requires CarriesAuthentication(r.command) && ConnectionMatches(cfg, h, k.conn, c, Trace(cfg, h, k.conn))
    requires x.MessageIn? && x.at.conn == k.conn && x.message.responseTo == k.id != 0
    ensures ConnectionMatches(cfg, h + [x], k.conn,
                              Authenticated(r, c, Some(Reply(x.message, Saturating(x.at.now, r.at) / 1000))),
                              Trace(cfg, h + [x], k.conn))
  {
    hide Name, CarriesAuthentication, TakesPart, StateOf, Trace, ExchangeCompleted, Ends, CreditedName;
    var reply := Some(Reply(x.message, Saturating(x.at.now, r.at) / 1000));
    TraceLonger(cfg, h, x, k.conn);
    SameExchange(cfg, h[r.origin].message.command.value, AuthDoneIn(reply));
    MatchLonger(cfg, h, x, k.conn, c, Trace(cfg, h, k.conn));
  }

  /** The stripped copy of a command takes part and ends as the command does. */
  lemma SameExchange(cfg: ProcessorConfig, c: Command, authDone: Option<bool>)
    ensures ExchangeCompleted(c.(principal := None), authDone) <==> Ends(c, authDone)
    ensures CarriesAuthentication(c.(principal := None)) <==> TakesPart(c)
  {
    hide Spelled, CarriesAuthentication, ExchangeCompleted;
    AuthWords(cfg, c.(principal := None), authDone);
  }

  /** A response that completes no authentication request leaves the trace alone. */
  lemma OtherResponse(cfg: ProcessorConfig, h: seq<Input>, s: State, x: Input, conn: ConnKey)
    requires s == StateOf(cfg, h) && ConnectionTraced(cfg, h, s, conn) && x.MessageIn? && !IsRequest(x, conn)
    requires AnsweredAuth(s, h, x, conn).None?
    ensures ConnectionMatches(cfg, h + [x], conn, GetConnection(s, conn), Trace(cfg, h + [x], conn))
  {
    hide Name, TakesPart, StateOf, Trace;
    TraceLonger(cfg, h, x, conn);
    MatchLonger(cfg, h, x, conn, GetConnection(s, conn), Trace(cfg, h, conn));
  }

  // ---------------------------------------------------------------- steps

  lemma PendingLonger(cfg: ProcessorConfig, h: seq<Input>, s: State, x: Input, pending: map<PendingKey, Request>)
    requires Traced(cfg, h, s)
    requires forall k | k in pending :: k in s.pending && pending[k] == s.pending[k] && !Resets(x, k.conn)
    ensures forall k | k in pending :: RequestTraced(cfg, h + [x], k, pending[k])
  {
    hide RequestTraced, Resets, ConnectionTraced, StateOf;
    forall k | k in pending ensures RequestTraced(cfg, h + [x], k, pending[k]) {
      RequestLonger(cfg, h, x, k, pending[k]);
    }
  }

  /** All that has to be shown of the state after an input. */
  ghost predicate Follows(cfg: ProcessorConfig, h: seq<Input>, t: State) {
    && (forall conn :: ConnectionTraced(cfg, h, t, conn))
    && (forall k | k in t.pending :: RequestTraced(cfg, h, k, t.pending[k]))
  }

  lemma RequestStep(cfg: ProcessorConfig, h: seq<Input>, s: State, at: Sighting, m: Message, victim: PendingKey)
    requires Traced(cfg, h, s) && m.responseTo == 0 && m.command.Some?
    ensures Follows(cfg, h + [MessageIn(at, m, victim)], StepOf(cfg, s, MessageIn(at, m, victim)).0)
  {
    hide Completed, Prune, Arrived, RequestTraced, CarriesAuthentication, StateOf, Trace, ConnectionMatches, CreditedName;
    var x := MessageIn(at, m, victim);
    PruneShrinks(s.pending, at.now, victim);
    PendingLonger(cfg, h, s, x, s.pending);
    RequestArrives(cfg, h, s, at, m, victim);
    var (t, r) := Arrived(cfg, s, at, m, m.command.value);
    CompletedTables(cfg, t, r, None);
    NoReplyNoChange(r, GetConnection(t, r.conn));
    var u := StepOf(cfg, s, x).0;
    forall conn ensures ConnectionTraced(cfg, h + [x], u, conn) {
      assert ConnectionTraced(cfg, h + [x], t, conn);
      assert GetConnection(u, conn) == GetConnection(t, conn);
    }
    if r.expectsResponse {
      NewRequestTraced(cfg, h, x, PendingKey(at.conn, r.requestId), r);
    }
  }

  lemma NoReplyNoChange(r: Request, c: Connection)
    ensures Authenticated(r, c, None) == c
  {
  }

  lemma NewRequestTraced(cfg: ProcessorConfig, h: seq<Input>, x: Input, k: PendingKey, r: Request)
    requires RequestCopies(cfg, x, r) && r.origin == |h| && r.conn == k.conn && r.requestId == k.id && r.expectsResponse
    requires IsRequest(x, k.conn) && r.actor == CreditedName(cfg, h, k.conn)
    ensures RequestTraced(cfg, h + [x], k, r)
  {
    hide CreditedName, Name;
    assert (h + [x])[..|h|] == h;
  }

  lemma ResponseStep(cfg: ProcessorConfig, h: seq<Input>, s: State, at: Sighting, m: Message, victim: PendingKey)
    requires Traced(cfg, h, s) && !(m.responseTo == 0 && m.command.Some?)
    ensures Follows(cfg, h + [MessageIn(at, m, victim)], StepOf(cfg, s, MessageIn(at, m, victim)).0)
  {
    hide Completed, Prune, Arrived, RequestTraced, CarriesAuthentication, StateOf, Trace, ConnectionMatches, CreditedName,
      Authenticated, AnsweredAuth;
    var x := MessageIn(at, m, victim);
    PendingLonger(cfg, h, s, x, s.pending);
    var k := PendingKey(at.conn, m.responseTo);
    var u := StepOf(cfg, s, x).0;
    if m.responseTo != 0 && k in s.pending {
      var r := s.pending[k];
      CompletedTables(cfg, s.(pending := s.pending - {k}), r, Some(Reply(m, Saturating(at.now, r.at) / 1000)));
      TracedConnection(cfg, h, k, r);
    }
    forall conn ensures ConnectionTraced(cfg, h + [x], u, conn) {
      assert ConnectionTraced(cfg, h, s, conn);
      if m.responseTo != 0 && k in s.pending && conn == at.conn && CarriesAuthentication(s.pending[k].command) {
        ResponseMatches(cfg, h, s, GetConnection(s, conn), k, s.pending[k], x);
      } else {
        NothingAnswered(cfg, h, s, x, conn);
        OtherResponse(cfg, h, s, x, conn);
        assert GetConnection(u, conn) == GetConnection(s, conn);
      }
    }
  }

  lemma TracedConnection(cfg: ProcessorConfig, h: seq<Input>, k: PendingKey, r: Request)
    requires RequestTraced(cfg, h, k, r)
    ensures r.conn == k.conn
  {
  }

  lemma NothingAnswered(cfg: ProcessorConfig, h: seq<Input>, s: State, x: Input, conn: ConnKey)
    requires x.MessageIn? && forall k | k in s.pending :: RequestTraced(cfg, h, k, s.pending[k])
    requires var k := PendingKey(x.at.conn, x.message.responseTo);
             !(x.message.responseTo != 0 && k in s.pending && conn == x.at.conn && CarriesAuthentication(s.pending[k].command))
    ensures AnsweredAuth(s, h, x, conn).None?
  {
    hide CarriesAuthentication, TakesPart, Name, CreditedName;
    var k := PendingKey(x.at.conn, x.message.responseTo);
    if k in s.pending {
      SameExchange(cfg, h[s.pending[k].origin].message.command.value, None);
    }
  }

  /** Inputs that leave the two tables as they are, but for forgotten or new entries. */
  lemma QuietStep(cfg: ProcessorConfig, h: seq<Input>, s: State, x: Input, t: State)
    requires Traced(cfg, h, s) && !x.MessageIn?
    requires forall k | k in t.pending :: k in s.pending && t.pending[k] == s.pending[k] && !Resets(x, k.conn)
    requires forall conn ::
               var c, d := GetConnection(s, conn), GetConnection(t, conn);
               && d.authenticated == (if Resets(x, conn) then None else c.authenticated)
               && d.pendingAuth == (if Resets(x, conn) then None else c.pendingAuth)
    ensures Follows(cfg, h + [x], t)
  {
    hide RequestTraced, Resets, StateOf, Trace, Name, GetConnection;
    PendingLonger(cfg, h, s, x, t.pending);
    forall conn ensures ConnectionTraced(cfg, h + [x], t, conn) {
      assert ConnectionTraced(cfg, h, s, conn);
      TraceLonger(cfg, h, x, conn);
      MatchLonger(cfg, h, x, conn, GetConnection(s, conn), Trace(cfg, h, conn));
    }
  }

  lemma ConnectionStep(cfg: ProcessorConfig, h: seq<Input>, s: State, x: Input)
    requires Traced(cfg, h, s) && x.ConnectionIn?
    ensures Follows(cfg, h + [x], StepOf(cfg, s, x).0)
  {
    hide OnMessage, OnLifecycle, OnLatency, OnProfile, OnDns, EventFrom, Traced, NextSequence, SaturateU32, Follows;
    QuietStep(cfg, h, s, x, StepOf(cfg, s, x).0);
  }

  lemma LifecycleStep(cfg: ProcessorConfig, h: seq<Input>, s: State, x: Input)
    requires Traced(cfg, h, s) && x.LifecycleIn?
    ensures Follows(cfg, h + [x], StepOf(cfg, s, x).0)
  {
    hide OnMessage, OnConnection, OnLatency, OnProfile, OnDns, EventFrom, Traced, NextSequence, Follows;
    QuietStep(cfg, h, s, x, StepOf(cfg, s, x).0);
  }

  lemma OtherStep(cfg: ProcessorConfig, h: seq<Input>, s: State, x: Input)
    requires Traced(cfg, h, s) && !x.MessageIn? && !x.ConnectionIn? && !x.LifecycleIn?
    ensures Follows(cfg, h + [x], StepOf(cfg, s, x).0)
  {
    hide OnMessage, OnConnection, OnLifecycle, EventFrom, D.DecodeDns, PruneDns, Traced, NextSequence, Follows;
    QuietStep(cfg, h, s, x, StepOf(cfg, s, x).0);
  }

  lemma StepFollows(cfg: ProcessorConfig, h: seq<Input>, s: State, x: Input)
    requires Traced(cfg, h, s)
    ensures Follows(cfg, h + [x], StepOf(cfg, s, x).0)
  {
    hide Traced, StepOf, Follows;
    if x.MessageIn? {
      if x.message.responseTo == 0 && x.message.command.Some? {
        RequestStep(cfg, h, s, x.at, x.message, x.victim);
      } else {
        ResponseStep(cfg, h, s, x.at, x.message, x.victim);
      }
    } else if x.ConnectionIn? {
      ConnectionStep(cfg, h, s, x);
    } else if x.LifecycleIn? {
      LifecycleStep(cfg, h, s, x);
    } else {
      OtherStep(cfg, h, s, x);
    }
  }

  lemma StepTraced(cfg: ProcessorConfig, h: seq<Input>, x: Input)
    requires Run(cfg, h + [x]) && Run(cfg, h) && Traced(cfg, h, After(cfg, h))
    requires After(cfg, h + [x]) == Step(cfg, After(cfg, h), x).0
    ensures Traced(cfg, h + [x], After(cfg, h + [x]))
  {
    hide StepOf, ConnectionMatches, RequestTraced, Trace, Run;
    var s := After(cfg, h);
    StepFollows(cfg, h, s, x);
    var t, u := StepOf(cfg, s, x).0, After(cfg, h + [x]);
    forall conn ensures ConnectionTraced(cfg, h + [x], u, conn) {
      assert ConnectionTraced(cfg, h + [x], t, conn);
      assert GetConnection(u, conn) == GetConnection(t, conn);
    }
  }

  /** In every run, both tables have the history they should. */
  lemma {:induction false} RunTraced(cfg: ProcessorConfig, h: seq<Input>)
    requires Run(cfg, h)
    ensures Traced(cfg, h, After(cfg, h))
    decreases |h|
  {
    hide Step, RequestTraced, Possible, Traced;
    if h == [] {
      NothingTraced(cfg);
    } else {
      var init := h[..|h| - 1];
      RunTraced(cfg, init);
      assert init + [h[|h| - 1]] == h;
      StepTraced(cfg, init, h[|h| - 1]);
    }
  }

  lemma NothingTraced(cfg: ProcessorConfig)
    ensures Traced(cfg, [], INITIAL)
  {
  }

  // ---------------------------------------------------------------- what the trace means

  /** What happened at `j` does not depend on what came later. */
  lemma SameBefore(cfg: ProcessorConfig, h: seq<Input>, to: nat, conn: ConnKey, j: nat)
    requires j < to <= |h|
    ensures forall r: nat :: Installs(cfg, h[..to], conn, r, j) == Installs(cfg, h, conn, r, j)
    ensures Installing(cfg, h[..to], conn, j) == Installing(cfg, h, conn, j)
    ensures Concludes(cfg, h[..to], conn, j) == Concludes(cfg, h, conn, j)
  {
    hide AnsweredAuth, StateOf, Ends, IsAuthRequest;
    var g := h[..to];
    assert g[..j] == h[..j] && g[j] == h[j];
    forall r: nat
      ensures Installs(cfg, g, conn, r, j) == Installs(cfg, h, conn, r, j)
      ensures Fails(cfg, g, conn, r, j) == Fails(cfg, h, conn, r, j)
    {
    }
  }

  lemma SamePends(cfg: ProcessorConfig, h: seq<Input>, n: nat, conn: ConnKey, i: nat, to: nat)
    requires to <= n <= |h|
    ensures Pends(cfg, h[..n], conn, i, to) <==> Pends(cfg, h, conn, i, to)
  {
    hide NamesSomeone, Resets, Concludes;
    var g := h[..n];
    forall j: nat | j < to ensures Concludes(cfg, g, conn, j) == Concludes(cfg, h, conn, j) && g[j] == h[j] {
      SameBefore(cfg, h, n, conn, j);
    }
  }

  lemma SameCredits(cfg: ProcessorConfig, h: seq<Input>, to: nat, conn: ConnKey, i: nat, r: nat, j: nat)
    requires to <= |h|
    ensures Credits(cfg, h[..to], conn, i, r, j, to) <==> Credits(cfg, h, conn, i, r, j, to)
  {
    hide NamesSomeone, Resets, Installing, Installs, Pends;
    var g := h[..to];
    forall n: nat | n < to ensures Installing(cfg, g, conn, n) == Installing(cfg, h, conn, n) && g[n] == h[n] {
      SameBefore(cfg, h, to, conn, n);
    }
    if j < to {
      SameBefore(cfg, h, to, conn, j);
      SamePends(cfg, h, to, conn, i, j);
    }
    InstalledIn(cfg, g, conn, r, j);
    InstalledIn(cfg, h, conn, r, j);
  }

  /** The request answered by the last input, and how the exchange ended. */
  lemma LastInstalls(cfg: ProcessorConfig, h: seq<Input>, x: Input, conn: ConnKey, r: nat)
    ensures Installs(cfg, h + [x], conn, r, |h|) <==>
            && AnsweredAuth(StateOf(cfg, h), h, x, conn) == Some(r)
            && OkOf(x) == Some(true) && Ends(h[r].message.command.value, DoneOf(x))
    ensures Fails(cfg, h + [x], conn, r, |h|) <==>
            AnsweredAuth(StateOf(cfg, h), h, x, conn) == Some(r) && OkOf(x) == Some(false)
  {
    hide StateOf, Ends, TakesPart;
    assert (h + [x])[..|h|] == h && (h + [x])[|h|] == x;
  }

  lemma LastConcludes(cfg: ProcessorConfig, h: seq<Input>, x: Input, conn: ConnKey)
    ensures var r := AnsweredAuth(StateOf(cfg, h), h, x, conn);
            && (Installing(cfg, h + [x], conn, |h|) <==>
                r.Some? && OkOf(x) == Some(true) && Ends(h[r.value].message.command.value, DoneOf(x)))
            && (Concludes(cfg, h + [x], conn, |h|) <==>
                Installing(cfg, h + [x], conn, |h|) || (r.Some? && OkOf(x) == Some(false)))
  {
    hide StateOf, Ends, Installs, Fails;
    var r := AnsweredAuth(StateOf(cfg, h), h, x, conn);
    forall n: nat { LastInstalls(cfg, h, x, conn, n); }
    if r.Some? { LastInstalls(cfg, h, x, conn, r.value); }
  }

  lemma PendsStep(cfg: ProcessorConfig, h: seq<Input>, x: Input, conn: ConnKey, i: nat)
    ensures Pends(cfg, h + [x], conn, i, |h| + 1) <==>
            if Resets(x, conn) then false
            else if NamesSomeone(cfg, x, conn) then i == |h|
            else !Concludes(cfg, h + [x], conn, |h|) && Pends(cfg, h, conn, i, |h|)
  {
    hide NamesSomeone, Resets, Concludes;
    var g := h + [x];
    assert g[|h|] == x && g[..|h|] == h;
    forall j: nat | j < |h| ensures Concludes(cfg, g, conn, j) == Concludes(cfg, h, conn, j) && g[j] == h[j] {
      SameBefore(cfg, g, |h|, conn, j);
    }
  }

  lemma CreditsStep(cfg: ProcessorConfig, h: seq<Input>, x: Input, conn: ConnKey, i: nat, r: nat, j: nat)
    ensures Credits(cfg, h + [x], conn, i, r, j, |h| + 1) <==>
            if Resets(x, conn) then false
            else if Installing(cfg, h + [x], conn, |h|) then
              && j == |h| && Installs(cfg, h + [x], conn, r, |h|)
              && (if NamesSomeone(cfg, h[r], conn) then i == r else Pends(cfg, h, conn, i, |h|))
            else Credits(cfg, h, conn, i, r, j, |h|)
  {
    hide NamesSomeone, Resets, Concludes, Installing, Installs, Pends;
    var g := h + [x];
    assert g[|h|] == x && g[..|h|] == h;
    forall n: nat | n < |h| ensures Installing(cfg, g, conn, n) == Installing(cfg, h, conn, n) && g[n] == h[n] {
      SameBefore(cfg, g, |h|, conn, n);
    }
    if j < |h| { SameBefore(cfg, g, |h|, conn, j); }
    InstalledIn(cfg, g, conn, r, j);
    InstalledIn(cfg, h, conn, r, j);
    if j <= |h| { SamePends(cfg, g, |h|, conn, i, j); }
  }

  lemma InstalledIn(cfg: ProcessorConfig, h: seq<Input>, conn: ConnKey, r: nat, j: nat)
    ensures Installs(cfg, h, conn, r, j) ==> r < j < |h| && Installing(cfg, h, conn, j)
  {
  }

  /** The traced positions are the ones described by `Pends` and `Credits`. */
  lemma {:induction false} TraceMeans(cfg: ProcessorConfig, h: seq<Input>, conn: ConnKey)
    ensures forall i: nat :: Trace(cfg, h, conn).named == Some(i) <==> Pends(cfg, h, conn, i, |h|)
    ensures forall i: nat, r: nat, j: nat ::
              Trace(cfg, h, conn).credit == Some(Credit(i, r, j)) <==> Credits(cfg, h, conn, i, r, j, |h|)
    decreases |h|
  {
    hide Trace, StateOf, Pends, Credits, Installing, Concludes, Installs, NamesSomeone, Resets, Ends;
    if h == [] {
      NoTrace(cfg, conn);
    } else {
      var init, x := h[..|h| - 1], h[|h| - 1];
      assert init + [x] == h;
      TraceMeans(cfg, init, conn);
      TraceLonger(cfg, init, x, conn);
      LastConcludes(cfg, init, x, conn);
      NamingIsNoAnswer(cfg, StateOf(cfg, init), init, x, conn);
      forall i: nat ensures Trace(cfg, h, conn).named == Some(i) <==> Pends(cfg, h, conn, i, |h|) {
        PendsStep(cfg, init, x, conn, i);
      }
      forall i: nat, r: nat, j: nat
        ensures Trace(cfg, h, conn).credit == Some(Credit(i, r, j)) <==> Credits(cfg, h, conn, i, r, j, |h|)
      {
        CreditsStep(cfg, init, x, conn, i, r, j);
        LastInstalls(cfg, init, x, conn, r);
      }
    }
  }

  lemma NamingIsNoAnswer(cfg: ProcessorConfig, s: State, h: seq<Input>, x: Input, conn: ConnKey)
    ensures NamesSomeone(cfg, x, conn) ==> AnsweredAuth(s, h, x, conn).None?
  {
  }

  lemma NoTrace(cfg: ProcessorConfig, conn: ConnKey)
    ensures Trace(cfg, [], conn) == NO_TRACE
    ensures forall i: nat :: !Pends(cfg, [], conn, i, 0)
    ensures forall i: nat, r: nat, j: nat :: !Credits(cfg, [], conn, i, r, j, 0)
  {
  }

  /** The credited name is the one some response credits, if one does. */
  lemma CreditedMeans(cfg: ProcessorConfig, h: seq<Input>, conn: ConnKey, to: nat, p: Bytes)
    requires to <= |h| && Run(cfg, h[..to])
    ensures CreditedName(cfg, h[..to], conn) == Some(p) <==> Justified(cfg, h, conn, p, to)
  {
    hide Trace, Credits, NamesSomeone, Run, Name, Traced;
    var g := h[..to];
    TraceMeans(cfg, g, conn);
    RunTraced(cfg, g);
    CreditNames(cfg, g, conn);
    if CreditedName(cfg, g, conn) == Some(p) {
      var c := Trace(cfg, g, conn).credit.value;
      SameCredits(cfg, h, to, conn, c.i, c.r, c.j);
      assert h[c.i] == g[c.i];
    }
    if Justified(cfg, h, conn, p, to) {
      var i: nat, r: nat, j: nat :| i < |h| && Credits(cfg, h, conn, i, r, j, to) && NamesPrincipal(cfg, h[i], conn, p);
      SameCredits(cfg, h, to, conn, i, r, j);
      assert Trace(cfg, g, conn).credit == Some(Credit(i, r, j));
      assert h[i] == g[i];
      NamedThere(cfg, g, conn, i, p);
    }
  }

  lemma CreditNames(cfg: ProcessorConfig, h: seq<Input>, conn: ConnKey)
    requires Traced(cfg, h, StateOf(cfg, h))
    ensures var t := Trace(cfg, h, conn);
            t.credit.Some? ==> t.credit.value.i < |h| && NamesSomeone(cfg, h[t.credit.value.i], conn)
  {
    hide Trace, StateOf, NamesSomeone, RequestTraced;
    assert ConnectionTraced(cfg, h, StateOf(cfg, h), conn);
  }

  lemma NamedThere(cfg: ProcessorConfig, h: seq<Input>, conn: ConnKey, i: nat, p: Bytes)
    requires i < |h| && NamesPrincipal(cfg, h[i], conn, p)
    ensures NameAt(cfg, h, i) == Some(p)
  {
  }

  /** What a credit rests on: since the connection was last reset, request `i` named the
      principal, and the response at `j` is that to request `r`, which expected one. */
  lemma CreditRests(cfg: ProcessorConfig, h: seq<Input>, conn: ConnKey, i: nat, r: nat, j: nat, to: nat)
    requires Run(cfg, h) && Credits(cfg, h, conn, i, r, j, to)
    ensures i < j && r < j < to <= |h| && NamesSomeone(cfg, h[i], conn) && IsAuthRequest(h[r], conn)
    ensures NoReset(h, conn, i, to) && NoReset(h, conn, r, to)
    ensures !h[r].message.moreToCome && h[j].MessageIn? && h[j].at.conn == conn
    ensures h[j].message.responseTo == h[r].message.requestId != 0 && OkOf(h[j]) == Some(true)
  {
    hide Trace, Resets, CreditedName, Name, TakesPart, Ends;
    RunPrefix(cfg, h, j);
    RunTraced(cfg, h[..j]);
    var k := PendingKey(conn, h[j].message.responseTo);
    assert RequestTraced(cfg, h[..j], k, After(cfg, h[..j]).pending[k]);
    assert forall n :: r <= n < j ==> h[..j][n] == h[n];
    assert NoReset(h, conn, r, j);
  }

  // ---------------------------------------------------------------- results

  /** The request at position `origin` is the one the activity reports. */
  predicate Reports(x: Input, a: Activity) {
    && IsRequest(x, a.connection) && a.requestId == x.message.requestId && a.command == x.message.command.value.name
  }

  /** The activity reports the request at `origin`, and carries exactly the principal
      credited on its connection when that request arrived. */
  ghost predicate Attributed(cfg: ProcessorConfig, h: seq<Input>, a: Activity, origin: nat) {
    && origin < |h| && Reports(h[origin], a) && NoReset(h, a.connection, origin, |h| - 1)
    && forall p :: a.principal == Some(p) <==> Justified(cfg, h, a.connection, p, origin)
  }

  lemma CompletionAttributed(
    cfg: ProcessorConfig, h: seq<Input>, x: Input, s: State, r: Request, reply: Option<Reply>, e: Event
  )
    requires e in Completed(cfg, s, r, reply).1 && e.payload.MongodbActivity?
    requires r.origin <= |h| && RequestCopies(cfg, (h + [x])[r.origin], r) && IsRequest((h + [x])[r.origin], r.conn)
    requires NoReset(h, r.conn, r.origin, |h|) || r.origin == |h|
    requires Run(cfg, h[..r.origin]) && r.actor == CreditedName(cfg, h[..r.origin], r.conn)
    ensures Attributed(cfg, h + [x], e.payload.activity, r.origin)
  {
    hide Completed, Justified, Name, Resets, CreditedName, Run;
    CompletedEvents(cfg, s, r, reply);
    var es := Completed(cfg, s, r, reply).1;
    var i :| 0 <= i < |es| && es[i] == e;
    assert (h + [x])[..r.origin] == h[..r.origin];
    forall p ensures r.actor == Some(p) <==> Justified(cfg, h + [x], r.conn, p, r.origin) {
      CreditedMeans(cfg, h + [x], r.conn, r.origin, p);
    }
  }

  lemma MessageAttributed(cfg: ProcessorConfig, h: seq<Input>, s: State, x: Input, e: Event)
    requires Run(cfg, h) && Traced(cfg, h, s) && x.MessageIn? && e in Step(cfg, s, x).1 && e.payload.MongodbActivity?
    ensures exists origin :: Attributed(cfg, h + [x], e.payload.activity, origin)
  {
    hide Completed, Prune, Arrived, Attributed, RequestCopies, ConnectionTraced, CreditedName, Run, StateOf;
    var m := x.message;
    if m.responseTo == 0 {
      RequestArrives(cfg, h, s, x.at, m, x.victim);
      var (t, r) := Arrived(cfg, s, x.at, m, m.command.value);
      assert h[..|h|] == h;
      CompletionAttributed(cfg, h, x, t, r, None, e);
    } else {
      var k := PendingKey(x.at.conn, m.responseTo);
      var r := s.pending[k];
      var reply := Some(Reply(m, Saturating(x.at.now, r.at) / 1000));
      RunPrefix(cfg, h, r.origin);
      CompletionAttributed(cfg, h, x, s.(pending := s.pending - {k}), r, reply, e);
    }
  }

  lemma OthersReportNone(cfg: ProcessorConfig, s: State, x: Input, e: Event)
    requires !x.MessageIn? && e in Step(cfg, s, x).1
    ensures !e.payload.MongodbActivity?
  {
    hide D.DecodeDns, PruneDns, WithoutConnection, WithoutProcess, KnownConnectionOperation, NextSequence;
  }

  /** Attribution, exactly. In every run, an activity reports a request, and carries a
      principal if and only if that principal was credited when the request arrived: the
      latest response since the connection's last close or exit that ended an
      authentication exchange with success answered a request that named it, or one that
      named nobody while it was the last named. */
  lemma AttributionSafety(cfg: ProcessorConfig, h: seq<Input>, e: Event)
    requires Run(cfg, h) && h != [] && e in Emitted(cfg, h) && e.payload.MongodbActivity?
    ensures exists origin :: Attributed(cfg, h, e.payload.activity, origin)
  {
    hide Step, Traced, Attributed;
    var init, x := h[..|h| - 1], h[|h| - 1];
    RunTraced(cfg, init);
    assert init + [x] == h;
    if x.MessageIn? {
      MessageAttributed(cfg, init, After(cfg, init), x, e);
    } else {
      OthersReportNone(cfg, After(cfg, init), x, e);
    }
  }

  /** A principal that requests on a connection name only outside authentication, as the
      target of a user-management command say, is never the actor of an activity there. */
  lemma TargetsNeverActors(cfg: ProcessorConfig, h: seq<Input>, e: Event, p: Bytes)
    requires Run(cfg, h) && h != [] && e in Emitted(cfg, h) && e.payload.MongodbActivity?
    requires forall x | x in h :: !NamesPrincipal(cfg, x, e.payload.activity.connection, p)
    ensures e.payload.activity.principal != Some(p)
  {
    hide Run, Emitted, NamesPrincipal, Credits;
    AttributionSafety(cfg, h, e);
  }

  /** Stored requests never hold a clear principal. */
  lemma NoClearPrincipal(cfg: ProcessorConfig, h: seq<Input>, k: PendingKey)
    requires Run(cfg, h) && k in After(cfg, h).pending
    ensures After(cfg, h).pending[k].command.principal.None?
  {
    hide Step, Run, CreditedName;
    RunTraced(cfg, h);
    assert RequestTraced(cfg, h, k, After(cfg, h).pending[k]);
  }
}
