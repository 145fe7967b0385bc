/** DNS responses and the queries they answer, over every run of the processor. */
module DnsPairing {
  import opened Primitives
  import opened Schema
  import opened Processor
  import opened Attribution
  import opened Activities
  import opened Signals
  import D = Dns

  /** A DNS message on the connection with this identifier. */
  predicate IsDns(x: Input, conn: ConnKey, id: int) {
    x.DnsIn? && x.at.conn == conn && D.DecodeDns(x.packet).Ok? && D.DecodeDns(x.packet).value.queryId == id
  }

  predicate IsQuery(x: Input, conn: ConnKey, id: int) {
    IsDns(x, conn, id) && !D.DecodeDns(x.packet).value.response
  }

  /** Before `to`, the query at `o` is the last DNS message on the connection with this
      identifier since its last reset. */
  ghost predicate Asked(h: seq<Input>, conn: ConnKey, id: int, o: nat, to: nat) {
    && o < to <= |h| && IsQuery(h[o], conn, id) && NoReset(h, conn, o, to)
    && forall j :: o < j < to ==> !IsDns(h[j], conn, id)
  }

  /** What is kept is a query that was asked and has not been answered since. */
  ghost predicate Waits(h: seq<Input>, k: PendingKey, q: DnsQuery) {
    exists o: nat :: Asked(h, k.conn, k.id, o, |h|) && Keeps(h[o], q)
  }

  predicate Keeps(x: Input, q: DnsQuery) {
    && x.DnsIn? && D.DecodeDns(x.packet).Ok?
    && var m := D.DecodeDns(x.packet).value; q == DnsQuery(x.at.now, m.name, m.recordType)
  }

  ghost predicate DnsTraced(h: seq<Input>, s: State) {
    forall k | k in s.pendingDns :: Waits(h, k, s.pendingDns[k])
  }

  lemma WaitsLonger(h: seq<Input>, x: Input, k: PendingKey, q: DnsQuery)
    requires Waits(h, k, q) && !Resets(x, k.conn) && !IsDns(x, k.conn, k.id)
    ensures Waits(h + [x], k, q)
  {
    hide Resets, IsDns, IsQuery, Keeps;
    var o: nat :| Asked(h, k.conn, k.id, o, |h|) && Keeps(h[o], q);
    assert Asked(h + [x], k.conn, k.id, o, |h| + 1) && (h + [x])[o] == h[o];
  }

  lemma WaitsNow(h: seq<Input>, x: Input, k: PendingKey, q: DnsQuery)
    requires IsQuery(x, k.conn, k.id) && Keeps(x, q) && !Resets(x, k.conn)
    ensures Waits(h + [x], k, q)
  {
    hide Resets, IsDns, IsQuery, Keeps;
    assert (h + [x])[|h|] == x;
    assert Asked(h + [x], k.conn, k.id, |h|, |h| + 1);
  }

  lemma PruneDnsShrinks(pending: map<PendingKey, DnsQuery>, now: nat)
    ensures forall k | k in PruneDns(pending, now) :: k in pending && PruneDns(pending, now)[k] == pending[k]
  {
  }

  /** The table after an input: what was there and is not reset, and perhaps the new query. */
  lemma TableStep(cfg: ProcessorConfig, s: State, x: Input)
    ensures var t := Step(cfg, s, x).0;
            forall k | k in t.pendingDns ::
              || (k in s.pendingDns && t.pendingDns[k] == s.pendingDns[k] && !Resets(x, k.conn) && !IsDns(x, k.conn, k.id))
              || (IsQuery(x, k.conn, k.id) && Keeps(x, t.pendingDns[k]) && !Resets(x, k.conn))
  {
    hide EventFrom, NextSequence, HashOf, CarriesAuthentication, Prune, Completed, D.DecodeDns, PruneDns, Arrived;
    if x.DnsIn? { PruneDnsShrinks(s.pendingDns, x.at.now); }
    if x.MessageIn? { MessageKeepsDns(cfg, s, x); }
  }

  lemma MessageKeepsDns(cfg: ProcessorConfig, s: State, x: Input)
    requires x.MessageIn?
    ensures Step(cfg, s, x).0.pendingDns == s.pendingDns
  {
    hide HashOf, CarriesAuthentication, Prune, ActivityOf, AuthOf, EventFrom, ReportsAuth, Authenticated, NextSequence;
  }

  lemma {:induction false} DnsRunTraced(cfg: ProcessorConfig, h: seq<Input>)
    requires Run(cfg, h)
    ensures DnsTraced(h, After(cfg, h))
    decreases |h|
  {
    hide Step, Possible, Waits, Resets, IsDns, IsQuery, Keeps;
    if h == [] {
    } else {
      var init, x := h[..|h| - 1], h[|h| - 1];
      DnsRunTraced(cfg, init);
      assert init + [x] == h;
      var s, t := After(cfg, init), After(cfg, h);
      TableStep(cfg, s, x);
      forall k | k in t.pendingDns ensures Waits(h, k, t.pendingDns[k]) {
        if IsQuery(x, k.conn, k.id) && Keeps(x, t.pendingDns[k]) && !Resets(x, k.conn) {
          WaitsNow(init, x, k, t.pendingDns[k]);
        } else {
          WaitsLonger(init, x, k, t.pendingDns[k]);
        }
      }
    }
  }

  /** A query is kept until its response; others stay, but when 4096 are kept already a new
      one first puts out those older than thirty seconds, and all of them if that leaves
      4096. */
  lemma DnsTable(cfg: ProcessorConfig, s: State, x: Input)
    requires x.DnsIn? && D.DecodeDns(x.packet).Ok?
    ensures var m, t := D.DecodeDns(x.packet).value, Step(cfg, s, x).0;
            var k := PendingKey(x.at.conn, m.queryId);
            && (m.response ==> t.pendingDns == s.pendingDns - {k})
            && (!m.response ==> k in t.pendingDns && Keeps(x, t.pendingDns[k]))
            && (!m.response && |s.pendingDns| < 4096 ==> t.pendingDns - {k} == s.pendingDns - {k})
            && (!m.response && |s.pendingDns| >= 4096 ==>
                  var recent := map j | j in s.pendingDns && s.pendingDns[j].at + 30_000_000_000 >= x.at.now :: s.pendingDns[j];
                  t.pendingDns - {k} == if |recent| < 4096 then recent - {k} else map[])
  {
    hide EventFrom, NextSequence, D.DecodeDns, OnMessage, OnConnection, OnLifecycle, OnLatency, OnProfile;
    RecentAre(s.pendingDns, x.at.now);
  }

  lemma RecentAre(pending: map<PendingKey, DnsQuery>, now: nat)
    ensures (map k | k in pending && pending[k].at >= Saturating(now, DNS_TTL_NS) :: pending[k])
            == map k | k in pending && pending[k].at + 30_000_000_000 >= now :: pending[k]
  {
  }

  // ---------------------------------------------------------------- what is reported

  /** The pairing of a response: none, and then it tells what it says itself; or with the
      last query, and then also how long that took, and what it asked where the response
      does not say. */
  ghost predicate Pairing(h: seq<Input>, x: Input, m: D.DnsMessage, d: DnsActivity) {
    || (d.durationUs.None? && d.name == m.name && d.recordType == m.recordType)
    || (m.response && exists o: nat :: Asked(h, x.at.conn, m.queryId, o, |h|) && Answers(h[o], x, m, d))
  }

  predicate Answers(asked: Input, x: Input, m: D.DnsMessage, d: DnsActivity) {
    && asked.DnsIn? && x.DnsIn? && D.DecodeDns(asked.packet).Ok?
    && var q := D.DecodeDns(asked.packet).value;
       && d.durationUs == Some(Micros(asked.at.now, x.at.now))
       && d.name == (if m.name.Some? then m.name else q.name)
       && d.recordType == (if m.recordType.Some? then m.recordType else q.recordType)
  }

  /** One event for each message that decodes, none for others. A response has a code and a
      number of answers, a query has not. */
  ghost predicate DnsReported(cfg: ProcessorConfig, h: seq<Input>, s: State, x: Input, es: seq<Event>)
    requires x.DnsIn?
  {
    match D.DecodeDns(x.packet)
    case Err(_) => es == []
    case Ok(m) =>
      && |es| == 1 && es[0].payload.Dns? && One(cfg, s, x.at, x.at.truncated, es[0].payload, es)
      && var d := es[0].payload.dns;
         && d.isResponse == m.response && d.queryId == m.queryId && d.connection == x.at.conn
         && d.responseCode == (if m.response then Some(m.responseCode) else None)
         && d.answerCount == (if m.response then Some(m.answerCount) else None)
         && (d.durationUs.Some? <==> m.response && PendingKey(x.at.conn, m.queryId) in s.pendingDns)
         && Pairing(h, x, m, d)
  }

  /** In every run, DNS messages are reported so. */
  lemma DnsReports(cfg: ProcessorConfig, h: seq<Input>, x: Input)
    requires Run(cfg, h) && x.DnsIn?
    ensures DnsReported(cfg, h, After(cfg, h), x, Step(cfg, After(cfg, h), x).1)
  {
    hide Run, After, Step, D.DecodeDns, IsDns, Resets, One;
    var s := After(cfg, h);
    DnsRunTraced(cfg, h);
    if D.DecodeDns(x.packet).Ok? {
      var m := D.DecodeDns(x.packet).value;
      var k := PendingKey(x.at.conn, m.queryId);
      DnsFrame(cfg, s, x);
      var e := Step(cfg, s, x).1[0];
      if m.response && k in s.pendingDns {
        assert Waits(h, k, s.pendingDns[k]);
        var o: nat :| Asked(h, k.conn, k.id, o, |h|) && Keeps(h[o], s.pendingDns[k]);
        assert Answers(h[o], x, m, e.payload.dns);
      }
    } else {
      DnsRefused(cfg, s, x);
    }
  }

  lemma DnsRefused(cfg: ProcessorConfig, s: State, x: Input)
    requires x.DnsIn? && D.DecodeDns(x.packet).Err?
    ensures Step(cfg, s, x).1 == []
  {
    hide D.DecodeDns;
  }

  lemma DnsFrame(cfg: ProcessorConfig, s: State, x: Input)
    requires x.DnsIn? && D.DecodeDns(x.packet).Ok?
    ensures var es, m := Step(cfg, s, x).1, D.DecodeDns(x.packet).value;
            var k := PendingKey(x.at.conn, m.queryId);
            var asked := if m.response && k in s.pendingDns then Some(s.pendingDns[k]) else None;
            && |es| == 1 && es[0].payload.Dns? && One(cfg, s, x.at, x.at.truncated, es[0].payload, es)
            && es[0].payload.dns == DnsActivity(
                 m.response, m.queryId,
                 OrElse(m.name, if asked.Some? then asked.value.name else None),
                 OrElse(m.recordType, if asked.Some? then asked.value.recordType else None),
                 if m.response then Some(m.responseCode) else None, if m.response then Some(m.answerCount) else None,
                 if asked.Some? then Some(Saturating(x.at.now, asked.value.at) / 1000) else None, x.at.conn)
  {
    hide EventFrom, FrameReads, NextSequence, PruneDns, D.DecodeDns, OnMessage, OnConnection, OnLifecycle, OnLatency, OnProfile;
    forall t: State, payload: Payload | t.sequence == s.sequence
      ensures One(cfg, s, x.at, x.at.truncated, payload, Emit(cfg, t, Seed(x.at.now, x.at.source, false, x.at.truncated), payload).1)
      ensures EventFrom(cfg, t, Seed(x.at.now, x.at.source, false, x.at.truncated), true, payload).payload == payload
    {
      FrameBuilt(cfg, t, Seed(x.at.now, x.at.source, false, x.at.truncated), x.at, true, payload);
    }
  }
}
