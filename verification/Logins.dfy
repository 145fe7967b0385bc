/** What single responses do to the authenticated principal of a connection, in every state
    a run can reach. */
module Logins {
  import opened Primitives
  import opened Schema
  import opened Processor
  import opened Attribution

  function PrincipalOn(s: State, conn: ConnKey): Option<Bytes> { GetConnection(s, conn).authenticated }

  /** `x` is a response to the request that arrived at `o` and is still stored. */
  ghost predicate RespondsTo(cfg: ProcessorConfig, h: seq<Input>, x: Input, o: nat)
    requires Run(cfg, h)
  {
    && x.MessageIn? && x.message.responseTo != 0
    && var k := PendingKey(x.at.conn, x.message.responseTo);
       k in After(cfg, h).pending && After(cfg, h).pending[k].origin == o
  }

  lemma ResponseFacts(cfg: ProcessorConfig, h: seq<Input>, x: Input, o: nat)
    requires Run(cfg, h) && RespondsTo(cfg, h, x, o)
    ensures o < |h| && IsRequest(h[o], x.at.conn) && Possible(cfg, After(cfg, h), x)
    ensures var r := After(cfg, h).pending[PendingKey(x.at.conn, x.message.responseTo)];
            RequestCopies(cfg, h[o], r) && r.conn == x.at.conn
  {
    hide Run, After, ConnectionTraced, CreditedName, RequestCopies;
    RunTraced(cfg, h);
    var k := PendingKey(x.at.conn, x.message.responseTo);
    assert RequestTraced(cfg, h, k, After(cfg, h).pending[k]);
  }

  /** The principal of every connection after a response. */
  lemma AfterResponse(cfg: ProcessorConfig, h: seq<Input>, x: Input, o: nat, conn: ConnKey)
    requires Run(cfg, h) && RespondsTo(cfg, h, x, o)
    ensures o < |h| && IsRequest(h[o], x.at.conn)
    ensures var c := h[o].message.command.value;
            var s, t := After(cfg, h), Step(cfg, After(cfg, h), x).0;
            PrincipalOn(t, conn) ==
            if conn == x.at.conn && TakesPart(c) && OkOf(x) == Some(true) && Ends(c, DoneOf(x))
            then OrElse(Name(cfg, c), GetConnection(s, conn).pendingAuth)
            else PrincipalOn(s, conn)
  {
    hide Run, After, Completed, Prune, Arrived, HashOf, CarriesAuthentication, TakesPart, Ends, Name, ExchangeCompleted;
    ResponseFacts(cfg, h, x, o);
    var s := After(cfg, h);
    var k := PendingKey(x.at.conn, x.message.responseTo);
    var r := s.pending[k];
    var reply := Some(Reply(x.message, Saturating(x.at.now, r.at) / 1000));
    CompletedTables(cfg, s.(pending := s.pending - {k}), r, reply);
    SameExchange(cfg, h[o].message.command.value, AuthDoneIn(reply));
  }

  /** A response that does not say the exchange is done leaves every connection's principal
      as it was, when it answers a SASL or a speculative request. */
  lemma NotDone(cfg: ProcessorConfig, h: seq<Input>, x: Input, o: nat, conn: ConnKey)
    requires Run(cfg, h) && RespondsTo(cfg, h, x, o) && DoneOf(x) != Some(true)
    ensures o < |h| && IsRequest(h[o], x.at.conn)
    ensures var c := h[o].message.command.value;
            c.speculative || Spelled(c.name, "saslstart") || Spelled(c.name, "saslcontinue") ==>
              PrincipalOn(Step(cfg, After(cfg, h), x).0, conn) == PrincipalOn(After(cfg, h), conn)
  {
    hide Run, After, Step, Spelled, TakesPart, PrincipalOn;
    AfterResponse(cfg, h, x, o, conn);
  }

  /** So does one that does not report success, or that answers another command. */
  lemma NoLogin(cfg: ProcessorConfig, h: seq<Input>, x: Input, o: nat, conn: ConnKey)
    requires Run(cfg, h) && RespondsTo(cfg, h, x, o)
    ensures o < |h| && IsRequest(h[o], x.at.conn)
    ensures OkOf(x) != Some(true) || !TakesPart(h[o].message.command.value) ==>
              PrincipalOn(Step(cfg, After(cfg, h), x).0, conn) == PrincipalOn(After(cfg, h), conn)
  {
    hide Run, After, Step, TakesPart, Ends, PrincipalOn;
    AfterResponse(cfg, h, x, o, conn);
  }

  /** A successful response to `authenticate`, whatever it says about being done, installs
      the principal that request named. */
  lemma AuthenticateInstalls(cfg: ProcessorConfig, h: seq<Input>, x: Input, o: nat, user: Bytes)
    requires Run(cfg, h) && RespondsTo(cfg, h, x, o) && OkOf(x) == Some(true) && cfg.salt.Some?
    requires o < |h| && IsRequest(h[o], x.at.conn)
    requires var c := h[o].message.command.value;
             Spelled(c.name, "authenticate") && !c.speculative && c.principal == Some(user)
    ensures PrincipalOn(Step(cfg, After(cfg, h), x).0, x.at.conn) == Some(cfg.hashPrincipal(cfg.salt.value, user))
  {
    hide Run, After, Step, PrincipalOn;
    AfterResponse(cfg, h, x, o, x.at.conn);
    OneWord(h[o].message.command.value.name);
  }

  lemma OneWord(name: Bytes)
    requires Spelled(name, "authenticate")
    ensures !Spelled(name, "saslstart") && !Spelled(name, "saslcontinue")
  {
    assert "authenticate"[0] == 'a' && "saslcontinue"[0] == 's' && |"saslcontinue"| == 12 && |"authenticate"| == 12;
  }

  /** A SASL exchange that ends with success installs the principal its last request named,
      or the one that pends on the connection. */
  lemma SaslInstalls(cfg: ProcessorConfig, h: seq<Input>, x: Input, o: nat)
    requires Run(cfg, h) && RespondsTo(cfg, h, x, o) && OkOf(x) == Some(true) && DoneOf(x) == Some(true)
    requires o < |h| && IsRequest(h[o], x.at.conn)
    requires var c := h[o].message.command.value; c.speculative || Spelled(c.name, "saslstart") || Spelled(c.name, "saslcontinue")
    ensures PrincipalOn(Step(cfg, After(cfg, h), x).0, x.at.conn) ==
            OrElse(Name(cfg, h[o].message.command.value), GetConnection(After(cfg, h), x.at.conn).pendingAuth)
  {
    hide Run, After, Step, PrincipalOn, Spelled, Name;
    AfterResponse(cfg, h, x, o, x.at.conn);
  }

  // ---------------------------------------------------------------- a whole login

  /** From any state: `authenticate` is asked and answered with success, then any request is
      asked and answered. Its activity carries the hash of the user that `authenticate`
      named. */
  lemma LoginCredits(
    cfg: ProcessorConfig, h: seq<Input>, conn: ConnKey, login: Input, yes: Input, ask: Input, answer: Input, user: Bytes
  )
    requires Run(cfg, h + [login, yes, ask, answer]) && cfg.salt.Some?
    requires IsRequest(login, conn) && !login.message.moreToCome && login.message.requestId != 0
    requires var c := login.message.command.value;
             Spelled(c.name, "authenticate") && !c.speculative && c.principal == Some(user)
    requires yes.MessageIn? && yes.at.conn == conn && yes.message.responseTo == login.message.requestId
    requires OkOf(yes) == Some(true)
    requires IsRequest(ask, conn) && !ask.message.moreToCome && ask.message.requestId != 0
    requires answer.MessageIn? && answer.at.conn == conn && answer.message.responseTo == ask.message.requestId
    ensures var g := h + [login, yes, ask, answer];
            var es := Emitted(cfg, g);
            && |es| >= 1 && es[0].payload.MongodbActivity?
            && es[0].payload.activity.requestId == ask.message.requestId
            && es[0].payload.activity.principal == Some(cfg.hashPrincipal(cfg.salt.value, user))
  {
    hide Step, Run, After, TakesPart, Name, Spelled, Possible;
    var g := h + [login, yes, ask, answer];
    var a, b, c := h + [login], h + [login, yes], h + [login, yes, ask];
    assert g[..|h| + 1] == a && g[..|h| + 2] == b && g[..|h| + 3] == c && g[..|h|] == h;
    RunPrefix(cfg, g, |h|);
    RunPrefix(cfg, g, |h| + 1);
    RunPrefix(cfg, g, |h| + 2);
    RunPrefix(cfg, g, |h| + 3);
    Unfold(cfg, a);
    Unfold(cfg, b);
    Unfold(cfg, c);
    Unfold(cfg, g);
    assert a[..|a| - 1] == h && b[..|b| - 1] == a && c[..|c| - 1] == b && g[..|g| - 1] == c;
    Stored(cfg, h, login, conn);
    AuthenticateInstalls(cfg, a, yes, |h|, user);
    Stored(cfg, b, ask, conn);
    Answering(cfg, c, answer, conn);
  }

  lemma Unfold(cfg: ProcessorConfig, h: seq<Input>)
    requires Run(cfg, h) && h != []
    ensures Run(cfg, h[..|h| - 1]) && After(cfg, h) == Step(cfg, After(cfg, h[..|h| - 1]), h[|h| - 1]).0
  {
    hide Step, Possible;
  }

  /** A request that expects a response is stored, with the connection's principal. */
  lemma Stored(cfg: ProcessorConfig, h: seq<Input>, x: Input, conn: ConnKey)
    requires Run(cfg, h) && IsRequest(x, conn) && !x.message.moreToCome
    ensures var s, t := After(cfg, h), Step(cfg, After(cfg, h), x).0;
            var k := PendingKey(conn, x.message.requestId);
            && k in t.pending && t.pending[k].origin == |h| && t.pending[k].requestId == x.message.requestId
            && t.pending[k].actor == PrincipalOn(s, conn)
  {
    hide Run, After, Prune, HashOf, CarriesAuthentication, ConnectionTraced, RequestTraced;
    RunTraced(cfg, h);
  }

  lemma Answering(cfg: ProcessorConfig, h: seq<Input>, x: Input, conn: ConnKey)
    requires Run(cfg, h) && x.MessageIn? && x.at.conn == conn && x.message.responseTo != 0
    requires PendingKey(conn, x.message.responseTo) in After(cfg, h).pending
    ensures var r := After(cfg, h).pending[PendingKey(conn, x.message.responseTo)];
            var es := Step(cfg, After(cfg, h), x).1;
            && |es| >= 1 && es[0].payload.MongodbActivity?
            && es[0].payload.activity.requestId == r.requestId && es[0].payload.activity.principal == r.actor
  {
    hide Run, After, Completed;
    var s := After(cfg, h);
    var k := PendingKey(conn, x.message.responseTo);
    var r := s.pending[k];
    CompletedEvents(cfg, s.(pending := s.pending - {k}), r, Some(Reply(x.message, Saturating(x.at.now, r.at) / 1000)));
  }
}
