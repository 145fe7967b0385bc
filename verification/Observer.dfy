/** The event processor as the object it is: five tables updated in place. Each method is
    proved to take exactly the steps of the run it extends, so the results about runs
    (modules Attribution, Conservation and Capture) are results about this object, and each
    promises what its events say in terms of what was seen. */
module Observer {
  import opened Primitives
  import opened Bson
  import opened Wire
  import opened Schema
  import opened Processor
  import opened Capture
  import Attribution
  import A = Activities
  import S = Signals
  import P = DnsPairing

  /** The inputs one after the other. */
  ghost function StepAll(cfg: ProcessorConfig, s: State, inputs: seq<Input>): (State, seq<Event>)
    decreases |inputs|
  {
    if inputs == [] then (s, [])
    else
      var (t, events) := StepAll(cfg, s, inputs[..|inputs| - 1]);
      var (u, more) := Step(cfg, t, inputs[|inputs| - 1]);
      (u, events + more)
  }

  lemma TableLonger(cfg: ProcessorConfig, h: seq<Happening>, x: Happening)
    ensures TableOf(cfg, h + [x]) == TableAfter(cfg, TableOf(cfg, h), x)
  {
    hide TableAfter;
    assert (h + [x])[..|h|] == h;
  }

  class EventProcessor {
    const cfg: ProcessorConfig
    var streams: Table
    var pending: map<PendingKey, Request>
    var pendingDns: map<PendingKey, DnsQuery>
    var connections: map<ConnKey, Connection>
    var sequence: nat
    var clock: nat
    ghost var history: seq<Input>
    ghost var happenings: seq<Happening>

    ghost function View(): State
      reads this
    {
      State(pending, pendingDns, connections, sequence, clock)
    }

    ghost predicate Valid()
      reads this
    {
      Run(cfg, history) && View() == After(cfg, history) && streams == TableOf(cfg, happenings)
    }

    constructor (cfg: ProcessorConfig)
      ensures Valid() && this.cfg == cfg && history == [] && happenings == []
      ensures View() == INITIAL && streams == map[]
    {
      this.cfg := cfg;
      streams, pending, pendingDns, connections := map[], map[], map[], map[];
      sequence, clock := 0, 0;
      history, happenings := [], [];
    }

    method PrunePendingRequests(now: nat) returns (victim: PendingKey)
      modifies this`pending
      ensures LegalVictim(old(pending), now, victim)
      ensures pending == Prune(old(pending), now, victim)
    {
      victim := PendingKey(ConnKey(0, 0), 0);
      if |pending| < MAX_PENDING { return; }
      var cutoff := Saturating(now, PENDING_TTL_NS);
      pending := map k | k in pending && pending[k].at >= cutoff :: pending[k];
      assert pending == Kept(old(pending), now);
      if |pending| >= MAX_PENDING {
        victim := Oldest();
        pending := pending - {victim};
      }
    }

    /** Any of the oldest requests, in the order the hash map happens to iterate. */
    method Oldest() returns (oldest: PendingKey)
      requires |pending| > 0
      ensures IsOldest(pending, oldest)
    {
      var keys := pending.Keys;
      oldest :| oldest in keys;
      keys := keys - {oldest};
      while keys != {}
        invariant keys <= pending.Keys && oldest in pending
        invariant forall k | k in pending && k !in keys :: pending[oldest].at <= pending[k].at
        decreases keys
      {
        var k :| k in keys;
        if pending[k].at < pending[oldest].at { oldest := k; }
        keys := keys - {k};
      }
    }

    method EventsForCompletedRequest(r: Request, reply: Option<Reply>) returns (events: seq<Event>)
      modifies this`connections, this`sequence
      ensures (View(), events) == Completed(cfg, old(View()), r, reply)
      ensures forall asked: Input | reply.None? && Attribution.RequestCopies(cfg, asked, r) ::
                A.Reported(cfg, asked, None, GetConnection(old(View()), r.conn).pendingAuth, old(sequence), events)
      ensures forall asked: Input, answer: Input |
                && Attribution.RequestCopies(cfg, asked, r) && answer.MessageIn?
                && reply == Some(Reply(answer.message, A.Micros(asked.at.now, answer.at.now))) ::
                A.Reported(cfg, asked, Some(answer), GetConnection(old(View()), r.conn).pendingAuth, old(sequence), events)
    {
      hide Completed, A.Reported, Attribution.RequestCopies;
      Describe(cfg, View(), r, reply);
      events := CompleteRequest(r, reply);
    }

    method CompleteRequest(r: Request, reply: Option<Reply>) returns (events: seq<Event>)
      modifies this`connections, this`sequence
      ensures (View(), events) == Completed(cfg, old(View()), r, reply)
    {
      hide ExchangeCompleted, ActivityOf, AuthOf, IsSessionAuth, IsUserManagement, NextSequence, Succeeded, AuthDoneIn;
      ghost var before := View();
      var session: Option<Bytes> := None;
      if CarriesAuthentication(r.command) {
        var state := GetConnection(State(pending, pendingDns, connections, sequence, clock), r.conn);
        session := OrElse(r.target, state.pendingAuth);
        if Succeeded(reply) == Some(false) {
          state := state.(pendingAuth := None);
        } else if Succeeded(reply) == Some(true) && ExchangeCompleted(r.command, AuthDoneIn(reply)) {
          state := state.(authenticated := session, pendingAuth := None);
        }
        connections := connections[r.conn := state];
      }
      var activity := ActivityOf(cfg, r, reply);
      var seed := Seed(r.at, r.source, true, r.truncated);
      events := [EventFrom(cfg, State(pending, pendingDns, connections, sequence, clock), seed, activity.query.None?,
                           MongodbActivity(activity))];
      sequence := NextSequence(sequence);
      if ReportsAuth(r.command) {
        var auth := AuthOf(r, session, reply);
        events := events + [EventFrom(cfg, State(pending, pendingDns, connections, sequence, clock), seed, true,
                                      MongodbAuth(auth))];
        sequence := NextSequence(sequence);
      }
    }

    method HandleMessage(at: Sighting, m: Message) returns (events: seq<Event>, victim: PendingKey)
      modifies this`pending, this`connections, this`sequence
      ensures m.responseTo == 0 && m.command.Some? && !m.moreToCome ==> LegalVictim(old(pending), at.now, victim)
      ensures (View(), events) == OnMessage(cfg, old(View()), at, m, victim)
    {
      hide Completed, Prune, LegalVictim, HashOf, CarriesAuthentication;
      victim := PendingKey(at.conn, 0);
      events := [];
      if m.responseTo == 0 {
        if m.command.Some? {
          var c := m.command.value;
          var target := HashOf(cfg, c);
          var state := if at.conn in connections then connections[at.conn] else NEW_CONNECTION;
          if CarriesAuthentication(c) && target.Some? { state := state.(pendingAuth := target); }
          connections := connections[at.conn := state];
          var r := Request(c.(principal := None), target, state.authenticated, at.conn, m.requestId, m.wireBytes,
                           m.compressed, !m.moreToCome, at.now, at.truncated, at.source, clock);
          if r.expectsResponse {
            victim := PrunePendingRequests(at.now);
            pending := pending[PendingKey(at.conn, r.requestId) := r];
          } else {
            events := EventsForCompletedRequest(r, None);
          }
        }
      } else {
        var k := PendingKey(at.conn, m.responseTo);
        if k in pending {
          var r := pending[k];
          pending := pending - {k};
          events := EventsForCompletedRequest(r, Some(Reply(m, Saturating(at.now, r.at) / 1000)));
        }
      }
    }

    method ProcessMessage(at: Sighting, m: Message) returns (events: seq<Event>, victim: PendingKey)
      requires Valid()
      modifies this`pending, this`connections, this`sequence, this`clock, this`history
      ensures Possible(cfg, old(View()), MessageIn(at, m, victim))
      ensures (View(), events) == Step(cfg, old(View()), MessageIn(at, m, victim))
      ensures Valid() && history == old(history) + [MessageIn(at, m, victim)]
      ensures Run(cfg, old(history)) && A.MessageReported(cfg, old(history), MessageIn(at, m, victim), events)
    {
      hide OnMessage, OnConnection, OnLifecycle, OnLatency, OnProfile, OnDns, Run, TableOf, LegalVictim, A.MessageReported;
      events, victim := HandleMessage(at, m);
      clock := clock + 1;
      history := history + [MessageIn(at, m, victim)];
      RunLonger(cfg, old(history), MessageIn(at, m, victim));
      A.MessageReports(cfg, old(history), MessageIn(at, m, victim));
    }

    /** One chunk of a stream: the buffers first, then its messages one by one. On a
        decode error nothing but the stream table changes. */
    method ProcessIoChunk(c: Chunk) returns (r: Decoded<seq<Event>>, ghost inputs: seq<Input>)
      requires Valid()
      modifies this
      ensures Valid() && streams == OnChunk(cfg, old(streams), c).0
      ensures happenings == old(happenings) + [Copied(c)] && history == old(history) + inputs
      ensures var decoded := OnChunk(cfg, old(streams), c).1;
              && (decoded.Err? ==> r == Err(decoded.error) && inputs == [] && View() == old(View()))
              && (decoded.Ok? ==>
                    && |inputs| == |decoded.value|
                    && (forall i :: 0 <= i < |inputs| ==> inputs[i].MessageIn? && inputs[i].message == decoded.value[i])
                    && r.Ok? && (View(), r.value) == StepAll(cfg, old(View()), inputs))
      ensures forall x | x in inputs :: x.MessageIn? && x.at == Sighting(c.conn, c.now, IsTruncated(c), c.source)
    {
      hide OnChunk, Step, Run, After, Possible;
      TableLonger(cfg, happenings, Copied(c));
      happenings := happenings + [Copied(c)];
      inputs := [];
      var outcome := OnChunk(cfg, streams, c);
      streams := outcome.0;
      if outcome.1.Err? { return Err(outcome.1.error), []; }
      var messages := outcome.1.value;
      var events: seq<Event> := [];
      var at := Sighting(c.conn, c.now, IsTruncated(c), c.source);
      for i := 0 to |messages|
        invariant Valid() && streams == outcome.0 && happenings == old(happenings) + [Copied(c)]
        invariant |inputs| == i && history == old(history) + inputs
        invariant forall j :: 0 <= j < i ==> inputs[j].MessageIn? && inputs[j].message == messages[j]
        invariant forall x | x in inputs :: x.MessageIn? && x.at == at
        invariant (View(), events) == StepAll(cfg, old(View()), inputs)
      {
        var more, victim := ProcessMessage(at, messages[i]);
        assert (inputs + [MessageIn(at, messages[i], victim)])[..i] == inputs;
        inputs := inputs + [MessageIn(at, messages[i], victim)];
        events := events + more;
      }
      r := Ok(events);
    }

    method HandleConnection(at: Sighting, operation: nat, durationNs: nat) returns (events: seq<Event>)
      modifies this`pending, this`pendingDns, this`connections, this`sequence, this`streams
      ensures (View(), events) == OnConnection(cfg, old(View()), at, operation, durationNs)
      ensures streams == if operation == OP_TCP_CLOSE then ForgetConnection(old(streams), at.conn) else old(streams)
    {
      hide EventFrom, NextSequence, SaturateU32;
      var key := at.conn;
      var state := if key in connections then connections[key] else NEW_CONNECTION;
      if operation == OP_TCP_RTT {
        state := state.(srttUs := Some(SaturateU32(durationNs / 1000)));
      } else if operation == OP_TCP_RETRANSMIT {
        state := state.(retransmits := SaturateU32(state.retransmits + 1));
      }
      connections := connections[key := state];
      events := [];
      if KnownConnectionOperation(operation) {
        if operation == OP_TCP_CLOSE {
          connections := connections - {key};
          streams := map k | k in streams && k.conn != key :: streams[k];
          pending := map k | k in pending && k.conn != key :: pending[k];
          pendingDns := map k | k in pendingDns && k.conn != key :: pendingDns[k];
        }
        var durationUs := None;
        if operation == OP_TCP_RTT || ((operation == OP_TCP_HANDSHAKE || operation == OP_TCP_TIMEOUT) && durationNs > 0) {
          durationUs := Some(durationNs / 1000);
        }
        events := [EventFrom(cfg, State(pending, pendingDns, connections, sequence, clock),
                             Seed(at.now, at.source, false, false), true, MongodbConnection(operation, key, durationUs))];
        sequence := NextSequence(sequence);
      }
    }

    method ProcessConnection(at: Sighting, operation: nat, durationNs: nat) returns (events: seq<Event>)
      requires Valid()
      modifies this
      ensures (View(), events) == Step(cfg, old(View()), ConnectionIn(at, operation, durationNs))
      ensures Valid() && history == old(history) + [ConnectionIn(at, operation, durationNs)]
      ensures streams == if operation == OP_TCP_CLOSE then ForgetConnection(old(streams), at.conn) else old(streams)
      ensures S.SignalReported(cfg, old(View()), ConnectionIn(at, operation, durationNs), events)
      ensures forall k :: k in streams <==> k in old(streams) && (operation == 8 ==> k.conn != at.conn)
      ensures operation == 8 ==> forall k | k in pending :: k.conn != at.conn
      ensures operation == 8 ==> (forall k | k in pendingDns :: k.conn != at.conn) && at.conn !in connections
    {
      S.SignalReports(cfg, View(), ConnectionIn(at, operation, durationNs));
      Forgets(cfg, View(), streams, at, operation, durationNs);
      hide OnMessage, OnConnection, OnLifecycle, OnLatency, OnProfile, OnDns, Run, TableOf, ForgetConnection,
        S.SignalReported;
      events := HandleConnection(at, operation, durationNs);
      if operation == OP_TCP_CLOSE {
        CloseTable(cfg, happenings, at.conn);
        happenings := happenings + [Closed(at.conn)];
      }
      clock := clock + 1;
      history := history + [ConnectionIn(at, operation, durationNs)];
      RunLonger(cfg, old(history), ConnectionIn(at, operation, durationNs));
    }

    method HandleLifecycle(at: Sighting, operation: nat) returns (events: seq<Event>)
      modifies this`pending, this`pendingDns, this`connections, this`sequence, this`streams
      ensures (View(), events) == OnLifecycle(cfg, old(View()), at, operation)
      ensures streams == if operation == OP_PROCESS_EXIT then ForgetProcess(old(streams), at.conn.tgid) else old(streams)
    {
      hide EventFrom, NextSequence;
      events := [];
      if operation == OP_PROCESS_EXEC || operation == OP_PROCESS_EXIT {
        if operation == OP_PROCESS_EXIT {
          var tgid := at.conn.tgid;
          streams := map k | k in streams && k.conn.tgid != tgid :: streams[k];
          pending := map k | k in pending && k.conn.tgid != tgid :: pending[k];
          pendingDns := map k | k in pendingDns && k.conn.tgid != tgid :: pendingDns[k];
          connections := map k | k in connections && k.tgid != tgid :: connections[k];
        }
        events := [EventFrom(cfg, State(pending, pendingDns, connections, sequence, clock),
                             Seed(at.now, at.source, false, false), true, Payload.ProcessLifecycle(operation))];
        sequence := NextSequence(sequence);
      }
    }

    method ProcessLifecycle(at: Sighting, operation: nat) returns (events: seq<Event>)
      requires Valid()
      modifies this
      ensures (View(), events) == Step(cfg, old(View()), LifecycleIn(at, operation))
      ensures Valid() && history == old(history) + [LifecycleIn(at, operation)]
      ensures streams == if operation == OP_PROCESS_EXIT then ForgetProcess(old(streams), at.conn.tgid) else old(streams)
      ensures S.SignalReported(cfg, old(View()), LifecycleIn(at, operation), events)
      ensures forall k :: k in streams <==> k in old(streams) && (operation == 16 ==> k.conn.tgid != at.conn.tgid)
      ensures operation == 16 ==> forall k | k in pending :: k.conn.tgid != at.conn.tgid
      ensures operation == 16 ==> forall k | k in pendingDns :: k.conn.tgid != at.conn.tgid
      ensures operation == 16 ==> forall k | k in connections :: k.tgid != at.conn.tgid
    {
      S.SignalReports(cfg, View(), LifecycleIn(at, operation));
      ForgetsProcess(cfg, View(), streams, at, operation);
      hide OnMessage, OnConnection, OnLifecycle, OnLatency, OnProfile, OnDns, Run, TableOf, ForgetProcess, S.SignalReported;
      events := HandleLifecycle(at, operation);
      if operation == OP_PROCESS_EXIT {
        ExitTable(cfg, happenings, at.conn.tgid);
        happenings := happenings + [Exited(at.conn.tgid)];
      }
      clock := clock + 1;
      history := history + [LifecycleIn(at, operation)];
      RunLonger(cfg, old(history), LifecycleIn(at, operation));
    }

    method HandleDns(at: Sighting, packet: Bytes) returns (r: Result<seq<Event>, D.DnsError>)
      modifies this`pendingDns, this`connections, this`sequence
      ensures match OnDns(cfg, old(View()), at, packet) {
                case Ok(after) => r.Ok? && (View(), r.value) == after
                case Err(e) => r == Err(e) && View() == old(View())
              }
    {
      hide D.DecodeDns, EventFrom, NextSequence;
      var decoded := D.DecodeDns(packet);
      if decoded.Err? { return Err(decoded.error); }
      var m := decoded.value;
      var k := PendingKey(at.conn, m.queryId);
      var name, recordType, duration := m.name, m.recordType, None;
      if m.response {
        if k in pendingDns {
          var asked := pendingDns[k];
          duration := Some(Saturating(at.now, asked.at) / 1000);
          name := OrElse(m.name, asked.name);
          recordType := OrElse(m.recordType, asked.recordType);
        }
        pendingDns := pendingDns - {k};
      } else {
        pendingDns := PruneDns(pendingDns, at.now)[k := DnsQuery(at.now, m.name, m.recordType)];
      }
      connections := connections[at.conn := if at.conn in connections then connections[at.conn] else NEW_CONNECTION];
      var activity := DnsActivity(
        m.response, m.queryId, name, recordType,
        if m.response then Some(m.responseCode) else None,
        if m.response then Some(m.answerCount) else None,
        duration, at.conn);
      r := Ok([EventFrom(cfg, State(pending, pendingDns, connections, sequence, clock),
                         Seed(at.now, at.source, false, at.truncated), true, Dns(activity))]);
      sequence := NextSequence(sequence);
    }

    method ProcessDns(at: Sighting, packet: Bytes) returns (r: Result<seq<Event>, D.DnsError>)
      requires Valid()
      modifies this`pendingDns, this`connections, this`sequence, this`clock, this`history
      ensures (View(), if r.Ok? then r.value else []) == Step(cfg, old(View()), DnsIn(at, packet))
      ensures r.Ok? <==> D.DecodeDns(packet).Ok?
      ensures Valid() && history == old(history) + [DnsIn(at, packet)]
      ensures P.DnsReported(cfg, old(history), old(View()), DnsIn(at, packet), if r.Ok? then r.value else [])
    {
      hide Step, OnDns, D.DecodeDns, Run, After, TableOf, Possible, P.DnsReported;
      DnsDecodes(cfg, View(), at, packet);
      P.DnsReports(cfg, history, DnsIn(at, packet));
      r := HandleDns(at, packet);
      clock := clock + 1;
      history := history + [DnsIn(at, packet)];
      RunLonger(cfg, old(history), DnsIn(at, packet));
    }
  }

  /** What a completion emits, for every request and response it can stand for. */
  lemma Describe(cfg: ProcessorConfig, s: State, r: Request, reply: Option<Reply>)
    ensures forall asked: Input | reply.None? && Attribution.RequestCopies(cfg, asked, r) ::
              A.Reported(cfg, asked, None, GetConnection(s, r.conn).pendingAuth, s.sequence, Completed(cfg, s, r, reply).1)
    ensures forall asked: Input, answer: Input |
              && Attribution.RequestCopies(cfg, asked, r) && answer.MessageIn?
              && reply == Some(Reply(answer.message, A.Micros(asked.at.now, answer.at.now))) ::
              A.Reported(cfg, asked, Some(answer), GetConnection(s, r.conn).pendingAuth, s.sequence,
                         Completed(cfg, s, r, reply).1)
  {
    hide Completed, A.Reported;
    forall asked: Input | reply.None? && Attribution.RequestCopies(cfg, asked, r)
      ensures A.Reported(cfg, asked, None, GetConnection(s, r.conn).pendingAuth, s.sequence, Completed(cfg, s, r, reply).1)
    {
      A.CompletionReported(cfg, s, r, asked, None);
    }
    forall asked: Input, answer: Input |
      && Attribution.RequestCopies(cfg, asked, r) && answer.MessageIn?
      && reply == Some(Reply(answer.message, A.Micros(asked.at.now, answer.at.now)))
      ensures A.Reported(cfg, asked, Some(answer), GetConnection(s, r.conn).pendingAuth, s.sequence,
                         Completed(cfg, s, r, reply).1)
    {
      A.CompletionReported(cfg, s, r, asked, Some(answer));
    }
  }

  /** A close, code 8, leaves nothing of the connection; other codes leave the streams. */
  lemma Forgets(cfg: ProcessorConfig, s: State, streams: Table, at: Sighting, operation: nat, durationNs: nat)
    ensures var t := OnConnection(cfg, s, at, operation, durationNs).0;
            var after := if operation == OP_TCP_CLOSE then ForgetConnection(streams, at.conn) else streams;
            && (forall k :: k in after <==> k in streams && (operation == 8 ==> k.conn != at.conn))
            && (operation == 8 ==>
                  && (forall k | k in t.pending :: k.conn != at.conn) && (forall k | k in t.pendingDns :: k.conn != at.conn)
                  && at.conn !in t.connections)
  {
    hide EventFrom, NextSequence, SaturateU32;
  }

  /** An exit, code 16, leaves nothing of the process. */
  lemma ForgetsProcess(cfg: ProcessorConfig, s: State, streams: Table, at: Sighting, operation: nat)
    ensures var t := OnLifecycle(cfg, s, at, operation).0;
            var after := if operation == OP_PROCESS_EXIT then ForgetProcess(streams, at.conn.tgid) else streams;
            && (forall k :: k in after <==> k in streams && (operation == 16 ==> k.conn.tgid != at.conn.tgid))
            && (operation == 16 ==>
                  && (forall k | k in t.pending :: k.conn.tgid != at.conn.tgid)
                  && (forall k | k in t.pendingDns :: k.conn.tgid != at.conn.tgid)
                  && (forall k | k in t.connections :: k.tgid != at.conn.tgid))
  {
    hide EventFrom, NextSequence;
  }

  lemma DnsDecodes(cfg: ProcessorConfig, s: State, at: Sighting, packet: Bytes)
    ensures OnDns(cfg, s, at, packet).Ok? <==> D.DecodeDns(packet).Ok?
    ensures Possible(cfg, s, DnsIn(at, packet))
    ensures match OnDns(cfg, s, at, packet) {
              case Ok(after) => Step(cfg, s, DnsIn(at, packet)) == (after.0.(clock := s.clock + 1), after.1)
              case Err(_) => Step(cfg, s, DnsIn(at, packet)) == (s.(clock := s.clock + 1), [])
            }
  {
    hide D.DecodeDns, EventFrom, PruneDns;
  }

  lemma CloseTable(cfg: ProcessorConfig, h: seq<Happening>, conn: ConnKey)
    ensures TableOf(cfg, h + [Closed(conn)]) == ForgetConnection(TableOf(cfg, h), conn)
  {
    TableLonger(cfg, h, Closed(conn));
  }

  lemma ExitTable(cfg: ProcessorConfig, h: seq<Happening>, tgid: nat)
    ensures TableOf(cfg, h + [Exited(tgid)]) == ForgetProcess(TableOf(cfg, h), tgid)
  {
    TableLonger(cfg, h, Exited(tgid));
  }
}
