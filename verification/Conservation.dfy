/** Conservation of requests over every run of the event processor: each request that
    expects a response is at every moment waiting, completed, overwritten, evicted or
    dropped, and only one of these. */
module Conservation {
  import opened Primitives
  import opened Schema
  import opened Processor
  import opened Attribution

  /** A request that is stored until its response arrives. */
  predicate Expecting(x: Input) {
    x.MessageIn? && x.message.responseTo == 0 && x.message.command.Some? && !x.message.moreToCome
  }

  /** Requests are named by the position of the input that brought them. */
  function Seen(h: seq<Input>): set<nat> {
    set i | 0 <= i < |h| && Expecting(h[i])
  }

  function Origins(pending: map<PendingKey, Request>): set<nat> {
    set k | k in pending :: pending[k].origin
  }

  /** What became of the requests that are no longer waiting. */
  datatype Fates = Fates(completed: set<nat>, overwritten: set<nat>, evicted: set<nat>, dropped: set<nat>)

  const NO_FATES := Fates({}, {}, {}, {})

  function Gone(f: Fates): set<nat> { f.completed + f.overwritten + f.evicted + f.dropped }

  ghost predicate Apart(f: Fates) {
    f.completed !! f.overwritten !! f.evicted !! f.dropped
  }

  function Join(f: Fates, g: Fates): Fates {
    Fates(f.completed + g.completed, f.overwritten + g.overwritten, f.evicted + g.evicted, f.dropped + g.dropped)
  }

  /** The requests that leave the table when it shrinks from `from` to `to`. */
  function Lost(from: map<PendingKey, Request>, to: map<PendingKey, Request>): set<nat> {
    Origins(from) - Origins(to)
  }

  /** What one input does to waiting requests, read off the table it meets. */
  function FatesOf(s: State, x: Input): Fates {
    match x
    case MessageIn(at, m, victim) =>
      if Expecting(x) then
        var pruned := Prune(s.pending, at.now, victim);
        NO_FATES.(evicted := Lost(s.pending, pruned),
                  overwritten := Lost(pruned, pruned - {PendingKey(at.conn, m.requestId)}))
      else if m.responseTo != 0 then
        NO_FATES.(completed := Lost(s.pending, s.pending - {PendingKey(at.conn, m.responseTo)}))
      else NO_FATES
    case ConnectionIn(at, op, _) =>
      if op == OP_TCP_CLOSE then NO_FATES.(dropped := Lost(s.pending, WithoutConnection(s, at.conn).pending)) else NO_FATES
    case LifecycleIn(at, op) =>
      if op == OP_PROCESS_EXIT then NO_FATES.(dropped := Lost(s.pending, WithoutProcess(s, at.conn.tgid).pending)) else NO_FATES
    case _ => NO_FATES
  }

  ghost function FatesAfter(cfg: ProcessorConfig, h: seq<Input>): Fates
    requires Run(cfg, h)
  {
    if h == [] then NO_FATES
    else
      var init := h[..|h| - 1];
      Join(FatesAfter(cfg, init), FatesOf(After(cfg, init), h[|h| - 1]))
  }

  // ---------------------------------------------------------------- the invariant

  ghost predicate Distinct(pending: map<PendingKey, Request>) {
    forall j, k | j in pending && k in pending && pending[j].origin == pending[k].origin :: j == k
  }

  ghost predicate Balanced(h: seq<Input>, s: State, f: Fates) {
    && s.clock == |h|
    && Distinct(s.pending)
    && Seen(h) == Origins(s.pending) + Gone(f)
    && Origins(s.pending) !! Gone(f)
    && Apart(f)
  }

  /** The table after a step: a part of the table before, and at most one new request. */
  lemma Shrink(from: map<PendingKey, Request>, to: map<PendingKey, Request>)
    requires Distinct(from) && to.Keys <= from.Keys && forall k | k in to :: to[k] == from[k]
    ensures Distinct(to) && Origins(to) <= Origins(from)
  {
  }

  lemma Insert(pending: map<PendingKey, Request>, k: PendingKey, r: Request)
    requires Distinct(pending - {k}) && r.origin !in Origins(pending - {k})
    ensures Distinct(pending[k := r])
    ensures Origins(pending[k := r]) == Origins(pending - {k}) + {r.origin}
  {
    var kept := pending - {k};
    forall o | o in Origins(kept) ensures o in Origins(pending[k := r]) {
      var j :| j in kept && kept[j].origin == o;
      assert pending[k := r][j].origin == o;
    }
    assert pending[k := r][k].origin == r.origin;
    forall j | j in pending[k := r] && j != k ensures pending[j].origin in Origins(kept) {
      assert kept[j] == pending[j];
    }
    var p := pending[k := r];
    forall i, j | i in p && j in p && p[i].origin == p[j].origin ensures i == j {
      if i != k && j != k {
        assert kept[i] == p[i] && kept[j] == p[j];
      }
    }
  }

  /** The request a response takes out of the table is the one it names. */
  lemma CompletedOne(pending: map<PendingKey, Request>, k: PendingKey)
    requires Distinct(pending)
    ensures Lost(pending, pending - {k}) == if k in pending then {pending[k].origin} else {}
  {
    var rest := pending - {k};
    if k in pending {
      forall o | o in Origins(pending) && o != pending[k].origin ensures o in Origins(rest) {
        var j :| j in pending && pending[j].origin == o;
        assert rest[j].origin == o;
      }
    } else {
      assert rest == pending;
    }
  }

  lemma SeenLonger(h: seq<Input>, x: Input)
    ensures Seen(h + [x]) == Seen(h) + if Expecting(x) then {|h|} else {}
  {
    hide Expecting;
    var longer := h + [x];
    forall i | i in Seen(h) ensures i in Seen(longer) {
      assert longer[i] == h[i];
    }
    assert longer[|h|] == x;
  }

  lemma SeenBelow(h: seq<Input>)
    ensures forall i | i in Seen(h) :: i < |h|
  {
  }

  // ---------------------------------------------------------------- steps

  lemma RequestBalanced(cfg: ProcessorConfig, h: seq<Input>, s: State, x: Input, f: Fates)
    requires Balanced(h, s, f) && Expecting(x)
    ensures Balanced(h + [x], Step(cfg, s, x).0, Join(f, FatesOf(s, x)))
  {
    hide Prune, HashOf, CarriesAuthentication, Expecting, Origins, Distinct, Seen;
    ExpectingFacts(x);
    var t := Step(cfg, s, x).0;
    var pruned := Prune(s.pending, x.at.now, x.victim);
    var k := PendingKey(x.at.conn, x.message.requestId);
    PruneShrinks(s.pending, x.at.now, x.victim);
    Shrink(s.pending, pruned);
    Shrink(pruned, pruned - {k});
    SeenLonger(h, x);
    SeenBelow(h);
    var (_, r) := Arrived(cfg, s, x.at, x.message, x.message.command.value);
    assert t.pending == pruned[k := r] && r.origin == |h|;
    Insert(pruned, k, r);
  }

  lemma ExpectingFacts(x: Input)
    requires Expecting(x)
    ensures x.MessageIn? && x.message.responseTo == 0 && x.message.command.Some? && !x.message.moreToCome
  {
  }

  /** A step that only removes requests, with their fate on record. */
  lemma RemovalBalanced(h: seq<Input>, s: State, x: Input, f: Fates, t: State, g: Fates)
    requires Balanced(h, s, f) && !Expecting(x) && t.clock == |h| + 1
    requires t.pending.Keys <= s.pending.Keys && forall k | k in t.pending :: t.pending[k] == s.pending[k]
    requires Gone(g) == Lost(s.pending, t.pending) && Apart(g)
    ensures Balanced(h + [x], t, Join(f, g))
  {
    hide Origins, Distinct, Seen, Expecting;
    Shrink(s.pending, t.pending);
    SeenLonger(h, x);
  }

  /** The table after an input that is not a stored request. */
  function Remaining(s: State, x: Input): map<PendingKey, Request> {
    match x
    case MessageIn(at, m, _) => if m.responseTo != 0 then s.pending - {PendingKey(at.conn, m.responseTo)} else s.pending
    case ConnectionIn(at, op, _) => if op == OP_TCP_CLOSE then WithoutConnection(s, at.conn).pending else s.pending
    case LifecycleIn(at, op) => if op == OP_PROCESS_EXIT then WithoutProcess(s, at.conn.tgid).pending else s.pending
    case _ => s.pending
  }

  lemma MessageRemaining(cfg: ProcessorConfig, s: State, x: Input)
    requires x.MessageIn? && !Expecting(x)
    ensures Step(cfg, s, x).0.pending == Remaining(s, x) && Step(cfg, s, x).0.clock == s.clock + 1
  {
    hide Completed, HashOf, CarriesAuthentication;
    var m := x.message;
    if m.responseTo == 0 {
      if m.command.Some? {
        var (t, r) := Arrived(cfg, s, x.at, m, m.command.value);
        CompletedTables(cfg, t, r, None);
      }
    } else {
      var k := PendingKey(x.at.conn, m.responseTo);
      if k in s.pending {
        var r := s.pending[k];
        CompletedTables(cfg, s.(pending := s.pending - {k}), r, Some(Reply(m, Saturating(x.at.now, r.at) / 1000)));
      } else {
        assert s.pending - {k} == s.pending;
      }
    }
  }

  lemma OtherRemaining(cfg: ProcessorConfig, s: State, x: Input)
    requires !x.MessageIn?
    ensures Step(cfg, s, x).0.pending == Remaining(s, x) && Step(cfg, s, x).0.clock == s.clock + 1
  {
    hide EventFrom, D.DecodeDns, PruneDns, NextSequence, SaturateU32;
  }

  lemma StepBalanced(cfg: ProcessorConfig, h: seq<Input>, s: State, x: Input, f: Fates)
    requires Balanced(h, s, f)
    ensures Balanced(h + [x], Step(cfg, s, x).0, Join(f, FatesOf(s, x)))
  {
    hide Step, Balanced, Prune;
    if Expecting(x) {
      RequestBalanced(cfg, h, s, x, f);
    } else {
      if x.MessageIn? { MessageRemaining(cfg, s, x); } else { OtherRemaining(cfg, s, x); }
      BalancedClock(h, s, f);
      RemovalBalanced(h, s, x, f, Step(cfg, s, x).0, FatesOf(s, x));
    }
  }

  lemma BalancedClock(h: seq<Input>, s: State, f: Fates)
    requires Balanced(h, s, f)
    ensures s.clock == |h|
  {
  }

  lemma {:induction false} RunBalanced(cfg: ProcessorConfig, h: seq<Input>)
    requires Run(cfg, h)
    ensures Balanced(h, After(cfg, h), FatesAfter(cfg, h))
    decreases |h|
  {
    hide Step, FatesOf, Possible;
    if h == [] {
    } else {
      var init, x := h[..|h| - 1], h[|h| - 1];
      RunBalanced(cfg, init);
      StepBalanced(cfg, init, After(cfg, init), x, FatesAfter(cfg, init));
      assert init + [x] == h;
    }
  }

  // ---------------------------------------------------------------- results

  lemma RemoveOne(pending: map<PendingKey, Request>, k: PendingKey)
    requires Distinct(pending) && k in pending
    ensures Distinct(pending - {k}) && pending[k].origin in Origins(pending)
    ensures Origins(pending) == Origins(pending - {k}) + {pending[k].origin}
    ensures pending[k].origin !in Origins(pending - {k})
  {
    Shrink(pending, pending - {k});
    CompletedOne(pending, k);
    hide Origins, Distinct;
    assert Lost(pending, pending - {k}) == {pending[k].origin};
  }

  lemma {:induction false} CountOrigins(pending: map<PendingKey, Request>)
    requires Distinct(pending)
    ensures |Origins(pending)| == |pending|
    decreases |pending|
  {
    hide Distinct;
    if pending.Keys != {} {
      hide Origins;
      var k :| k in pending.Keys;
      RemoveOne(pending, k);
      CountOrigins(pending - {k});
      assert pending.Keys == (pending - {k}).Keys + {k};
    }
  }

  predicate AnswersRequest(e: Event) { e.payload.MongodbActivity? && e.payload.activity.expectsResponse }

  /** How many of the events answer a request. */
  function CountAnswers(events: seq<Event>): nat {
    if events == [] then 0
    else CountAnswers(events[..|events| - 1]) + if AnswersRequest(events[|events| - 1]) then 1 else 0
  }

  /** All the answering activities of a run. */
  ghost function AnswersEmitted(cfg: ProcessorConfig, h: seq<Input>): nat
    requires Run(cfg, h)
    decreases |h|
  {
    if h == [] then 0 else AnswersEmitted(cfg, h[..|h| - 1]) + CountAnswers(Emitted(cfg, h))
  }

  /** The request that the last input of a run answers, by its key in the table. */
  predicate AnswersKey(s: State, x: Input, k: PendingKey) {
    x.MessageIn? && x.message.responseTo != 0 && k == PendingKey(x.at.conn, x.message.responseTo) && k in s.pending
  }

  /** The events report this request, and it alone: its activity first, with what the
      response says about it, and no other. */
  ghost predicate ReportsIt(cfg: ProcessorConfig, h: seq<Input>, x: Input, r: Request, events: seq<Event>) {
    && x.MessageIn? && |events| >= 1
    && events[0].payload ==
       MongodbActivity(ActivityOf(cfg, r, Some(Reply(x.message, Saturating(x.at.now, r.at) / 1000))))
    && r.origin < |h| && Reports(h[r.origin], events[0].payload.activity) && AnswersRequest(events[0])
    && forall i :: 1 <= i < |events| ==> !events[i].payload.MongodbActivity?
  }

  /** At most one activity for each request. An input that answers a stored request
      completes that request and no other, one never completed before, and emits exactly
      one activity, which reports that very request; no other input completes a request or
      emits an activity that answers one. */
  lemma OneActivityEach(cfg: ProcessorConfig, h: seq<Input>)
    requires Run(cfg, h) && h != []
    ensures var init, x := h[..|h| - 1], h[|h| - 1];
            var s := After(cfg, init);
            var done := FatesOf(s, x).completed;
            && done !! Gone(FatesAfter(cfg, init))
            && (forall k | AnswersKey(s, x, k) ::
                  done == {s.pending[k].origin} && ReportsIt(cfg, h, x, s.pending[k], Emitted(cfg, h)))
            && ((forall k :: !AnswersKey(s, x, k)) ==>
                  done == {} && forall e | e in Emitted(cfg, h) :: !AnswersRequest(e))
  {
    hide Step, FatesAfter, Prune, Traced, Possible, Origins, Distinct, Seen, Gone, AnswersRequest, Apart, ReportsIt;
    var init, x := h[..|h| - 1], h[|h| - 1];
    var s := After(cfg, init);
    RunBalanced(cfg, init);
    RunTraced(cfg, init);
    NothingLost(s.pending);
    if x.MessageIn? {
      var k := PendingKey(x.at.conn, x.message.responseTo);
      CompletedOne(s.pending, k);
      if k in s.pending { RemoveOne(s.pending, k); }
      MessageAnswers(cfg, init, s, x);
      assert init + [x] == h;
      assert AnswersKey(s, x, k) || forall j :: !AnswersKey(s, x, j);
    } else {
      forall e | e in Step(cfg, s, x).1 ensures !AnswersRequest(e) {
        OthersReportNone(cfg, s, x, e);
        NoActivityNoAnswer(e);
      }
    }
  }

  lemma {:induction false} CountNone(events: seq<Event>)
    requires forall e | e in events :: !AnswersRequest(e)
    ensures CountAnswers(events) == 0
  {
    hide AnswersRequest;
    if events == [] {
    } else {
      CountNone(events[..|events| - 1]);
    }
  }

  lemma {:induction false} CountFirst(events: seq<Event>)
    requires |events| >= 1 && AnswersRequest(events[0]) && forall i :: 1 <= i < |events| ==> !AnswersRequest(events[i])
    ensures CountAnswers(events) == 1
  {
    hide AnswersRequest;
    if |events| == 1 {
      assert events[..0] == [];
    } else {
      CountFirst(events[..|events| - 1]);
    }
  }

  /** Over a run, there are as many answering activities as completed requests. */
  lemma {:induction false} ActivitiesAreCompletions(cfg: ProcessorConfig, h: seq<Input>)
    requires Run(cfg, h)
    ensures AnswersEmitted(cfg, h) == |FatesAfter(cfg, h).completed|
    decreases |h|
  {
    hide Step, After, FatesOf, Possible, CountAnswers, AnswersRequest, AnswersKey;
    if h == [] {
    } else {
      var init, x := h[..|h| - 1], h[|h| - 1];
      ActivitiesAreCompletions(cfg, init);
      OneActivityEach(cfg, h);
      var s, events := After(cfg, init), Emitted(cfg, h);
      var f, g := FatesAfter(cfg, init).completed, FatesOf(s, x).completed;
      assert f !! g;
      assert |f + g| == |f| + |g|;
      if k :| AnswersKey(s, x, k) {
        forall i | 1 <= i < |events| ensures !AnswersRequest(events[i]) {
          NoActivityNoAnswer(events[i]);
        }
        CountFirst(events);
      } else {
        CountNone(events);
      }
    }
  }

  /** Request conservation: at every point of every run, the response-expecting requests
      seen are exactly those waiting, completed, overwritten, evicted and dropped, no
      request counted twice, and the completed ones are counted by the activities
      emitted for them. */
  lemma RequestConservation(cfg: ProcessorConfig, h: seq<Input>)
    requires Run(cfg, h)
    ensures var f := FatesAfter(cfg, h);
            && Seen(h) == Origins(After(cfg, h).pending) + Gone(f)
            && |Seen(h)| == |After(cfg, h).pending| + |f.completed| + |f.overwritten| + |f.evicted| + |f.dropped|
            && |f.completed| == AnswersEmitted(cfg, h)
  {
    hide Step, After, FatesAfter, Run, Origins, Seen, AnswersEmitted;
    RunBalanced(cfg, h);
    ActivitiesAreCompletions(cfg, h);
    var f, pending := FatesAfter(cfg, h), After(cfg, h).pending;
    CountOrigins(pending);
    assert |Gone(f)| == |f.completed| + |f.overwritten| + |f.evicted| + |f.dropped| by {
      assert |f.completed + f.overwritten| == |f.completed| + |f.overwritten|;
      assert |f.completed + f.overwritten + f.evicted| == |f.completed + f.overwritten| + |f.evicted|;
    }
    assert |Origins(pending) + Gone(f)| == |Origins(pending)| + |Gone(f)|;
  }

  lemma NothingLost(pending: map<PendingKey, Request>)
    ensures Lost(pending, pending) == {}
  {
  }

  lemma NoActivityNoAnswer(e: Event)
    requires !e.payload.MongodbActivity?
    ensures !AnswersRequest(e)
  {
  }

  lemma MessageAnswers(cfg: ProcessorConfig, h: seq<Input>, s: State, x: Input)
    requires Traced(cfg, h, s) && x.MessageIn?
    ensures var es := Step(cfg, s, x).1;
            var k := PendingKey(x.at.conn, x.message.responseTo);
            if x.message.responseTo != 0 && k in s.pending then ReportsIt(cfg, h + [x], x, s.pending[k], es)
            else forall e | e in es :: !AnswersRequest(e)
  {
    hide Completed, Prune, HashOf, CarriesAuthentication, Justified, ConnectionTraced, Resets;
    var m := x.message;
    if m.responseTo == 0 {
      if m.command.Some? && m.moreToCome {
        var (t, r) := Arrived(cfg, s, x.at, m, m.command.value);
        CompletedEvents(cfg, t, r, None);
      }
    } else {
      var k := PendingKey(x.at.conn, m.responseTo);
      if k in s.pending {
        var r := s.pending[k];
        assert RequestTraced(cfg, h, k, r);
        CompletedEvents(cfg, s.(pending := s.pending - {k}), r, Some(Reply(m, Saturating(x.at.now, r.at) / 1000)));
      }
    }
  }

  // ---------------------------------------------------------------- bounds

  ghost predicate WithinLimits(s: State) {
    |s.pending| <= 32768 && |s.pendingDns| <= 4096
  }

  lemma SubmapSize<K, V>(from: map<K, V>, to: map<K, V>)
    requires to.Keys <= from.Keys
    ensures |to| <= |from|
    decreases |from|
  {
    if to.Keys != {} {
      var k :| k in to.Keys;
      assert (from - {k}).Keys == from.Keys - {k} && (to - {k}).Keys == to.Keys - {k};
      SubmapSize(from - {k}, to - {k});
    }
  }

  lemma PruneMakesRoom(pending: map<PendingKey, Request>, now: nat, victim: PendingKey)
    requires |pending| <= MAX_PENDING && LegalVictim(pending, now, victim)
    ensures |Prune(pending, now, victim)| < MAX_PENDING
  {
    hide Kept;
    var kept := Kept(pending, now);
    KeptShrinks(pending, now);
    SubmapSize(pending, kept);
    if |pending| >= MAX_PENDING && |kept| >= MAX_PENDING {
      assert (kept - {victim}).Keys == kept.Keys - {victim};
    }
  }

  /** What pruning does, in figures: nothing below 32768 requests. From there on it puts out
      those older than five minutes, and if 32768 are left even so, one of the oldest. */
  lemma PruneMeans(pending: map<PendingKey, Request>, now: nat, victim: PendingKey)
    requires LegalVictim(pending, now, victim)
    ensures var after := Prune(pending, now, victim);
            var recent := map k | k in pending && pending[k].at + 300_000_000_000 >= now :: pending[k];
            && (|pending| < 32768 ==> after == pending)
            && (|pending| >= 32768 && |recent| < 32768 ==> after == recent)
            && (|pending| >= 32768 && |recent| >= 32768 ==>
                  && victim in recent && after == recent - {victim}
                  && forall k | k in recent :: recent[victim].at <= recent[k].at)
  {
    assert Kept(pending, now) == map k | k in pending && pending[k].at + 300_000_000_000 >= now :: pending[k];
  }

  lemma KeptShrinks(pending: map<PendingKey, Request>, now: nat)
    ensures Kept(pending, now).Keys <= pending.Keys
  {
  }

  lemma InsertSize<K, V>(m: map<K, V>, k: K, v: V)
    ensures |m[k := v]| <= |m| + 1
  {
    assert m[k := v].Keys == m.Keys + {k};
  }

  lemma PruneDnsMakesRoom(pending: map<PendingKey, DnsQuery>, now: nat)
    ensures |PruneDns(pending, now)| < MAX_PENDING_DNS
  {
  }

  lemma StepWithinLimits(cfg: ProcessorConfig, s: State, x: Input)
    requires WithinLimits(s) && Possible(cfg, s, x)
    ensures WithinLimits(Step(cfg, s, x).0)
  {
    hide Prune, Completed, HashOf, CarriesAuthentication, EventFrom, D.DecodeDns, PruneDns, NextSequence, SaturateU32,
      LegalVictim, Expecting, Remaining, Step;
    PendingWithinLimit(cfg, s, x);
    DnsWithinLimit(cfg, s, x);
  }

  lemma PendingWithinLimit(cfg: ProcessorConfig, s: State, x: Input)
    requires WithinLimits(s) && Possible(cfg, s, x)
    ensures |Step(cfg, s, x).0.pending| <= MAX_PENDING
  {
    hide Prune, Completed, HashOf, CarriesAuthentication, LegalVictim, OnDns, OnConnection, OnLifecycle, OnLatency, OnProfile;
    if Expecting(x) {
      PruneMakesRoom(s.pending, x.at.now, x.victim);
      var (_, r) := Arrived(cfg, s, x.at, x.message, x.message.command.value);
      InsertSize(Prune(s.pending, x.at.now, x.victim), PendingKey(x.at.conn, x.message.requestId), r);
    } else {
      if x.MessageIn? { MessageRemaining(cfg, s, x); } else { OtherRemaining(cfg, s, x); }
      SubmapSize(s.pending, Remaining(s, x));
    }
  }

  lemma DnsWithinLimit(cfg: ProcessorConfig, s: State, x: Input)
    requires WithinLimits(s)
    ensures |Step(cfg, s, x).0.pendingDns| <= MAX_PENDING_DNS
  {
    hide Prune, HashOf, CarriesAuthentication, EventFrom, D.DecodeDns, PruneDns, NextSequence, SaturateU32, Authenticated,
      ActivityOf, AuthOf, ReportsAuth;
    var t := Step(cfg, s, x).0;
    if x.DnsIn? {
      PruneDnsMakesRoom(s.pendingDns, x.at.now);
      if OnDns(cfg, s, x.at, x.packet).Ok? {
        var m := D.DecodeDns(x.packet).value;
        var k := PendingKey(x.at.conn, m.queryId);
        InsertSize(PruneDns(s.pendingDns, x.at.now), k, DnsQuery(x.at.now, m.name, m.recordType));
        SubmapSize(s.pendingDns, s.pendingDns - {k});
      }
    } else if x.ConnectionIn? || x.LifecycleIn? {
      SubmapSize(s.pendingDns, t.pendingDns);
    }
  }

  /** The two tables stay within their limits in every run. */
  lemma {:induction false} RunWithinLimits(cfg: ProcessorConfig, h: seq<Input>)
    requires Run(cfg, h)
    ensures WithinLimits(After(cfg, h))
    decreases |h|
  {
    hide Step, Possible;
    if h == [] {
    } else {
      RunWithinLimits(cfg, h[..|h| - 1]);
      StepWithinLimits(cfg, After(cfg, h[..|h| - 1]), h[|h| - 1]);
    }
  }
}
