/** Whether the request that named the credited principal was itself answered: exactly
    when, over every run, and always if a connection's authentication requests do not
    overlap. */
module CreditedRequests {
  import opened Primitives
  import opened Schema
  import opened Processor
  import opened Attribution
  import opened Conservation

  // ---------------------------------------------------------------- fates and time

  lemma FatesLonger(cfg: ProcessorConfig, h: seq<Input>)
    requires Run(cfg, h) && h != []
    ensures Run(cfg, h[..|h| - 1])
    ensures FatesAfter(cfg, h) == Join(FatesAfter(cfg, h[..|h| - 1]), FatesOf(After(cfg, h[..|h| - 1]), h[|h| - 1]))
  {
    hide FatesOf, Possible, Step;
  }

  /** What was completed stays completed. */
  lemma {:induction false} CompletedStays(cfg: ProcessorConfig, h: seq<Input>, n: nat, o: nat)
    requires Run(cfg, h) && n <= |h| && Run(cfg, h[..n]) && o in FatesAfter(cfg, h[..n]).completed
    ensures o in FatesAfter(cfg, h).completed
    decreases |h|
  {
    hide FatesAfter, FatesOf, Run, After;
    if n == |h| {
      assert h[..n] == h;
    } else {
      FatesLonger(cfg, h);
      assert h[..|h| - 1][..n] == h[..n];
      CompletedStays(cfg, h[..|h| - 1], n, o);
    }
  }

  /** A request is dropped only by a reset of its connection. */
  lemma {:induction false} DroppedByReset(cfg: ProcessorConfig, h: seq<Input>, o: nat)
    requires Run(cfg, h) && o in FatesAfter(cfg, h).dropped
    ensures o < |h| && h[o].MessageIn? && exists m :: o < m < |h| && Resets(h[m], h[o].at.conn)
    decreases |h|
  {
    hide FatesAfter, FatesOf, Run, After, Resets;
    if h == [] {
      NothingDropped(cfg);
    } else {
      FatesLonger(cfg, h);
      var init, x := h[..|h| - 1], h[|h| - 1];
      if o in FatesAfter(cfg, init).dropped {
        DroppedByReset(cfg, init, o);
        var m :| o < m < |init| && Resets(init[m], init[o].at.conn);
        assert h[m] == init[m] && h[o] == init[o];
      } else {
        DroppedNow(cfg, init, x, o);
        assert h[|init|] == x && h[o] == init[o];
      }
    }
  }

  lemma NothingDropped(cfg: ProcessorConfig)
    requires Run(cfg, [])
    ensures FatesAfter(cfg, []) == NO_FATES
  {
  }

  lemma DroppedNow(cfg: ProcessorConfig, h: seq<Input>, x: Input, o: nat)
    requires Run(cfg, h) && o in FatesOf(After(cfg, h), x).dropped
    ensures o < |h| && h[o].MessageIn? && Resets(x, h[o].at.conn)
  {
    hide Prune, CreditedName, Name, ConnectionTraced, Run, After, Origins;
    var s := After(cfg, h);
    RunTraced(cfg, h);
    var rest := if x.ConnectionIn? then WithoutConnection(s, x.at.conn).pending else WithoutProcess(s, x.at.conn.tgid).pending;
    var k := LostKey(s.pending, rest, o);
    assert RequestTraced(cfg, h, k, s.pending[k]);
  }

  lemma LostKey(from: map<PendingKey, Request>, to: map<PendingKey, Request>, o: nat) returns (k: PendingKey)
    requires o in Lost(from, to) && forall n | n in to :: n in from && to[n] == from[n]
    ensures k in from && k !in to && from[k].origin == o
  {
    k :| k in from && from[k].origin == o;
    assert forall n | n in to :: to[n].origin in Origins(to);
  }

  // ---------------------------------------------------------------- exactly when

  /** The request has been answered by the end of the history. */
  ghost predicate Answered(cfg: ProcessorConfig, h: seq<Input>, o: nat)
    requires Run(cfg, h)
  {
    o in FatesAfter(cfg, h).completed
  }

  /** It never asked for a response, waits for one still, or lost its place in the table
      to a newer request. */
  ghost predicate Unanswerable(cfg: ProcessorConfig, h: seq<Input>, o: nat)
    requires Run(cfg, h) && o < |h| && h[o].MessageIn?
  {
    || h[o].message.moreToCome
    || o in Origins(After(cfg, h).pending)
    || o in FatesAfter(cfg, h).evicted
    || o in FatesAfter(cfg, h).overwritten
  }

  /** Of any request since the connection's last reset. */
  lemma AnsweredExactly(cfg: ProcessorConfig, h: seq<Input>, conn: ConnKey, o: nat)
    requires Run(cfg, h) && o < |h| && IsRequest(h[o], conn) && NoReset(h, conn, o, |h|)
    ensures Answered(cfg, h, o) <==> !Unanswerable(cfg, h, o)
  {
    hide FatesAfter, Run, After, Origins, Resets;
    RunBalanced(cfg, h);
    if o in FatesAfter(cfg, h).dropped {
      DroppedByReset(cfg, h, o);
    }
    SeenIs(h, o);
  }

  lemma SeenIs(h: seq<Input>, o: nat)
    requires o < |h|
    ensures o in Seen(h) <==> Expecting(h[o])
  {
  }

  /** For every run and every response that credits a principal: when the response has
      been processed, the request that named the principal has been answered exactly if
      it is neither waiting still, nor evicted or overwritten, nor sent without asking for
      a response. */
  lemma CreditedAnsweredExactly(cfg: ProcessorConfig, h: seq<Input>, conn: ConnKey, i: nat, r: nat, j: nat, to: nat)
    requires Run(cfg, h) && Credits(cfg, h, conn, i, r, j, to)
    ensures i < j < |h| && h[i].MessageIn? && Run(cfg, h[..j + 1])
    ensures Answered(cfg, h[..j + 1], i) <==> !Unanswerable(cfg, h[..j + 1], i)
    ensures Answered(cfg, h[..j + 1], r)
  {
    hide Run, Credits, Answered, Unanswerable, NamesSomeone, Resets;
    CreditRests(cfg, h, conn, i, r, j, to);
    RunPrefix(cfg, h, j + 1);
    var g := h[..j + 1];
    assert g[i] == h[i] && forall n :: 0 <= n <= j ==> g[n] == h[n];
    NamingIsRequest(cfg, h[i], conn);
    AnsweredExactly(cfg, g, conn, i);
    CompletedAtLast(cfg, h, conn, i, r, j, to);
  }

  lemma NamingIsRequest(cfg: ProcessorConfig, x: Input, conn: ConnKey)
    requires NamesSomeone(cfg, x, conn)
    ensures IsAuthRequest(x, conn) && IsRequest(x, conn)
  {
  }

  /** The crediting response completes the request it answers. */
  lemma CompletedAtLast(cfg: ProcessorConfig, h: seq<Input>, conn: ConnKey, i: nat, r: nat, j: nat, to: nat)
    requires Run(cfg, h) && Credits(cfg, h, conn, i, r, j, to) && Run(cfg, h[..j + 1])
    ensures r in FatesOf(StateOf(cfg, h[..j]), h[j]).completed && Answered(cfg, h[..j + 1], r)
  {
    hide Pends, NoReset, Installing, Ends, FatesAfter, Distinct, Origins, TakesPart, Prune;
    var g := h[..j + 1];
    assert g[..|g| - 1] == h[..j] && g[|g| - 1] == h[j];
    FatesLonger(cfg, g);
    RunBalanced(cfg, h[..j]);
    CompletedOne(After(cfg, h[..j]).pending, PendingKey(conn, h[j].message.responseTo));
  }

  // ---------------------------------------------------------------- without overlap

  /** Each authentication request on the connection is sent only when those before it,
      since the last reset, have been answered. */
  ghost predicate Sequential(cfg: ProcessorConfig, h: seq<Input>, conn: ConnKey)
    requires Run(cfg, h)
  {
    forall q: nat, r: nat | q < r < |h| && Run(cfg, h[..r]) && FollowsAuth(h, conn, q, r) :: Answered(cfg, h[..r], q)
  }

  ghost predicate FollowsAuth(h: seq<Input>, conn: ConnKey, q: nat, r: nat) {
    q < r < |h| && IsAuthRequest(h[q], conn) && IsAuthRequest(h[r], conn) && NoReset(h, conn, q, r)
  }

  /** On a connection whose authentication requests do not overlap, every credited
      principal was named by a request that has been answered: the one that ends the
      exchange, or an earlier one, with no other name in between. */
  lemma SequentialCredits(cfg: ProcessorConfig, h: seq<Input>, conn: ConnKey, i: nat, r: nat, j: nat, to: nat)
    requires Run(cfg, h) && Sequential(cfg, h, conn) && Credits(cfg, h, conn, i, r, j, to)
    ensures i <= r && j < |h| && Run(cfg, h[..j + 1]) && Answered(cfg, h[..j + 1], i)
  {
    hide Run, Credits, NamesSomeone, Resets, FatesAfter, FatesOf, IsAuthRequest;
    CreditRests(cfg, h, conn, i, r, j, to);
    CreditedAnsweredExactly(cfg, h, conn, i, r, j, to);
    NamingIsRequest(cfg, h[i], conn);
    if r < i {
      RunPrefix(cfg, h, i);
      assert FollowsAuth(h, conn, r, i);
      AnsweredTwice(cfg, h, conn, i, r, j, to);
    } else if i < r {
      RunPrefix(cfg, h, r);
      assert FollowsAuth(h, conn, i, r);
      assert h[..j + 1][..r] == h[..r];
      CompletedStays(cfg, h[..j + 1], r, i);
    }
  }

  /** A request is answered once. */
  lemma AnsweredTwice(cfg: ProcessorConfig, h: seq<Input>, conn: ConnKey, i: nat, r: nat, j: nat, to: nat)
    requires Run(cfg, h) && Credits(cfg, h, conn, i, r, j, to) && i < j && Run(cfg, h[..i])
    ensures r !in FatesAfter(cfg, h[..i]).completed
  {
    hide Run, FatesAfter, FatesOf, Credits;
    CreditRests(cfg, h, conn, i, r, j, to);
    RunPrefix(cfg, h, j);
    RunPrefix(cfg, h, j + 1);
    CompletedAtLast(cfg, h, conn, i, r, j, to);
    var g := h[..j + 1];
    assert g[..|g| - 1] == h[..j] && g[|g| - 1] == h[j];
    OneActivityEach(cfg, g);
    if r in FatesAfter(cfg, h[..i]).completed {
      assert h[..j][..i] == h[..i];
      CompletedStays(cfg, h[..j], i, r);
    }
  }

  /** The same of activities: without overlap, an activity carries a principal only after
      the request that named it was answered. */
  lemma SequentialAttribution(cfg: ProcessorConfig, h: seq<Input>, e: Event, p: Bytes)
    requires Run(cfg, h) && h != [] && e in Emitted(cfg, h) && e.payload.MongodbActivity?
    requires Sequential(cfg, h, e.payload.activity.connection) && e.payload.activity.principal == Some(p)
    ensures exists origin: nat, i: nat, n: nat ::
              && Attributed(cfg, h, e.payload.activity, origin) && i < n <= origin
              && NamesPrincipal(cfg, h[i], e.payload.activity.connection, p)
              && Run(cfg, h[..n]) && Answered(cfg, h[..n], i)
  {
    hide Run, Emitted, NamesPrincipal, Credits, Sequential, Answered, After;
    var conn := e.payload.activity.connection;
    AttributionSafety(cfg, h, e);
    var origin :| Attributed(cfg, h, e.payload.activity, origin);
    assert Justified(cfg, h, conn, p, origin);
    var i: nat, r: nat, j: nat :| i < |h| && Credits(cfg, h, conn, i, r, j, origin) && NamesPrincipal(cfg, h[i], conn, p);
    SequentialCredits(cfg, h, conn, i, r, j, origin);
    CreditRests(cfg, h, conn, i, r, j, origin);
    assert j + 1 <= origin;
  }
}
