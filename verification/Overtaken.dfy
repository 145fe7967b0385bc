/** The limit of attribution: authentication state is kept for a connection and not for an
    exchange, so when two exchanges overlap on one connection the later name is credited
    with the success of the earlier one. */
module Overtaken {
  import opened Primitives
  import opened Wire
  import opened Schema
  import opened Processor

  function Named(name: string, principal: Option<Bytes>): Command {
    Command(Ascii(name), None, None, None, principal, false, None, None, None)
  }

  function Asks(conn: ConnKey, id: int, c: Command): Input {
    MessageIn(Sighting(conn, 0, false, 0), Message(id, 0, 0, 0, false, false, Some(c), None), PendingKey(conn, id))
  }

  function Answers(conn: ConnKey, id: int, done: bool): Input {
    MessageIn(
      Sighting(conn, 0, false, 0),
      Message(0, id, 0, 0, false, false, None, Some(Status(Some(true), None, None, None, Some(done)))),
      PendingKey(conn, id))
  }

  /** `first` starts an exchange and is answered, `second` starts another and never is,
      and the first exchange is then continued to its successful end. */
  function Overlap(conn: ConnKey, first: Bytes, second: Bytes): seq<Input> {
    [Asks(conn, 1, Named("saslStart", Some(first))), Answers(conn, 1, false),
     Asks(conn, 2, Named("saslStart", Some(second))),
     Asks(conn, 3, Named("saslContinue", None)), Answers(conn, 3, true)]
  }

  lemma SaslCommands(principal: Option<Bytes>)
    ensures CarriesAuthentication(Named("saslStart", principal)) && CarriesAuthentication(Named("saslContinue", principal))
    ensures !ExchangeCompleted(Named("saslStart", principal), Some(false))
    ensures ExchangeCompleted(Named("saslContinue", principal), Some(true))
  {
    assert Lower(Ascii("saslStart")) == Ascii("saslstart");
    assert Lower(Ascii("saslContinue")) == Ascii("saslcontinue");
  }

  /** The connection and the request an arrival leaves behind. */
  lemma AskedArrives(cfg: ProcessorConfig, s: State, at: Sighting, m: Message, c: Command)
    requires CarriesAuthentication(c)
    ensures var (t, r) := Arrived(cfg, s, at, m, c);
            var target := HashOf(cfg, c);
            && t.pending == s.pending && r.command == c.(principal := None) && r.target == target && r.conn == at.conn
            && r.requestId == m.requestId && r.expectsResponse == !m.moreToCome
            && GetConnection(t, at.conn).pendingAuth == (if target.Some? then target else GetConnection(s, at.conn).pendingAuth)
            && GetConnection(t, at.conn).authenticated == GetConnection(s, at.conn).authenticated
  {
    hide HashOf, CarriesAuthentication;
  }

  lemma NotPruned(pending: map<PendingKey, Request>, now: nat, victim: PendingKey)
    requires |pending| < MAX_PENDING
    ensures Prune(pending, now, victim) == pending && LegalVictim(pending, now, victim)
  {
  }

  lemma Asked(cfg: ProcessorConfig, s: State, conn: ConnKey, id: int, c: Command)
    requires |s.pending| < MAX_PENDING && CarriesAuthentication(c)
    ensures Possible(cfg, s, Asks(conn, id, c))
    ensures var t := Step(cfg, s, Asks(conn, id, c)).0;
            var target := HashOf(cfg, c);
            && GetConnection(t, conn).pendingAuth == (if target.Some? then target else GetConnection(s, conn).pendingAuth)
            && GetConnection(t, conn).authenticated == GetConnection(s, conn).authenticated
            && t.pending.Keys == s.pending.Keys + {PendingKey(conn, id)}
            && (forall k | k in s.pending && k != PendingKey(conn, id) :: t.pending[k] == s.pending[k])
            && var r := t.pending[PendingKey(conn, id)];
               r.command == c.(principal := None) && r.target == target && r.conn == conn
  {
    hide HashOf, CarriesAuthentication, Prune, LegalVictim, Arrived, Completed;
    var x := Asks(conn, id, c);
    AskedArrives(cfg, s, x.at, x.message, c);
    NotPruned(s.pending, x.at.now, x.victim);
    SameConnection(Arrived(cfg, s, x.at, x.message, c).0, Step(cfg, s, x).0, conn);
  }

  lemma SameConnection(s: State, t: State, conn: ConnKey)
    requires s.connections == t.connections
    ensures GetConnection(s, conn) == GetConnection(t, conn)
  {
  }

  lemma Answered(cfg: ProcessorConfig, s: State, conn: ConnKey, id: int, done: bool)
    requires id != 0 && PendingKey(conn, id) in s.pending
    requires var r := s.pending[PendingKey(conn, id)]; r.conn == conn && CarriesAuthentication(r.command)
    ensures Possible(cfg, s, Answers(conn, id, done))
    ensures var t := Step(cfg, s, Answers(conn, id, done)).0;
            var r := s.pending[PendingKey(conn, id)];
            && t.pending == s.pending - {PendingKey(conn, id)}
            && (if ExchangeCompleted(r.command, Some(done))
                then GetConnection(t, conn).authenticated == OrElse(r.target, GetConnection(s, conn).pendingAuth)
                else GetConnection(t, conn).pendingAuth == GetConnection(s, conn).pendingAuth)
  {
    hide HashOf, CarriesAuthentication, ExchangeCompleted, ActivityOf, EventFrom, AuthOf, ReportsAuth;
  }

  /** The first exchange is under way and nothing is pending. */
  lemma FirstAnswered(cfg: ProcessorConfig, conn: ConnKey, first: Bytes, second: Bytes)
    ensures var h := Overlap(conn, first, second)[..2]; Run(cfg, h) && After(cfg, h).pending == map[]
  {
    hide Step, Possible, Run, After, CarriesAuthentication, ExchangeCompleted, HashOf, Named;
    var h := Overlap(conn, first, second);
    RunNothing(cfg);
    SaslCommands(Some(first));
    SaslCommands(None);
    Stripped("saslStart", Some(first));
    Asked(cfg, INITIAL, conn, 1, Named("saslStart", Some(first)));
    RunLonger(cfg, [], h[0]);
    assert [] + [h[0]] == h[..1];
    Answered(cfg, After(cfg, h[..1]), conn, 1, false);
    RunLonger(cfg, h[..1], h[1]);
    assert h[..1] + [h[1]] == h[..2];
  }

  lemma Stripped(name: string, principal: Option<Bytes>)
    ensures Named(name, principal).(principal := None) == Named(name, None)
  {
  }

  lemma Target(cfg: ProcessorConfig, name: string, principal: Option<Bytes>)
    requires cfg.salt.Some?
    ensures HashOf(cfg, Named(name, principal)) ==
            if principal.Some? then Some(cfg.hashPrincipal(cfg.salt.value, principal.value)) else None
  {
  }

  /** From there, the second name is credited with the end of the first exchange. */
  lemma SecondCredited(cfg: ProcessorConfig, h: seq<Input>, conn: ConnKey, second: Bytes, more: seq<Input>)
    requires cfg.salt.Some? && Run(cfg, h) && After(cfg, h).pending == map[]
    requires more == h + [Asks(conn, 2, Named("saslStart", Some(second))), Asks(conn, 3, Named("saslContinue", None)),
                          Answers(conn, 3, true)]
    ensures Run(cfg, more)
    ensures GetConnection(After(cfg, more), conn).authenticated == Some(cfg.hashPrincipal(cfg.salt.value, second))
    ensures PendingKey(conn, 2) in After(cfg, more).pending
  {
    hide Step, Possible, Run, After, CarriesAuthentication, ExchangeCompleted, HashOf, Named, GetConnection;
    SaslCommands(Some(second));
    SaslCommands(None);
    Stripped("saslContinue", None);
    Target(cfg, "saslStart", Some(second));
    Target(cfg, "saslContinue", None);
    var start, continuation := Asks(conn, 2, Named("saslStart", Some(second))), Asks(conn, 3, Named("saslContinue", None));
    Asked(cfg, After(cfg, h), conn, 2, Named("saslStart", Some(second)));
    RunLonger(cfg, h, start);
    var s := After(cfg, h + [start]);
    assert s.pending.Keys == {PendingKey(conn, 2)};
    assert |s.pending| == |s.pending.Keys|;
    Asked(cfg, s, conn, 3, Named("saslContinue", None));
    RunLonger(cfg, h + [start], continuation);
    assert h + [start] + [continuation] == h + [start, continuation];
    Answered(cfg, After(cfg, h + [start, continuation]), conn, 3, true);
    RunLonger(cfg, h + [start, continuation], Answers(conn, 3, true));
    assert h + [start, continuation] + [Answers(conn, 3, true)] == more;
  }

  /** A run in which no response to the second principal's request ever arrives, and yet
      that principal is the connection's authenticated one at the end, its request still
      waiting. */
  lemma OvertakenExchange(cfg: ProcessorConfig, conn: ConnKey, first: Bytes, second: Bytes)
    requires cfg.salt.Some?
    ensures var h := Overlap(conn, first, second);
            && Run(cfg, h)
            && GetConnection(After(cfg, h), conn).authenticated == Some(cfg.hashPrincipal(cfg.salt.value, second))
            && PendingKey(conn, 2) in After(cfg, h).pending
            && forall x | x in h :: x.MessageIn? && x.message.responseTo != 2
  {
    hide Step, Possible, Run, After, GetConnection, Named;
    var h := Overlap(conn, first, second);
    FirstAnswered(cfg, conn, first, second);
    SecondCredited(cfg, h[..2], conn, second, h);
  }

  lemma RunNothing(cfg: ProcessorConfig)
    ensures Run(cfg, []) && After(cfg, []) == INITIAL
  {
  }
}
