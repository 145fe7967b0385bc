/** End-to-end validity: what the Observer emits and batches passes every check on the
    way (crates/observer/src/lib.rs, crates/observer/src/main.rs, crates/schema/src/lib.rs,
    crates/outpost/src/lib.rs). */
module Validity {
  import opened Primitives
  import opened Schema
  import opened Enrichment
  import opened Processor
  import opened Hops
  import opened Batcher

  lemma EventAdmissible(cfg: ProcessorConfig, s: State, seed: Seed, metadataOnly: bool, payload: Payload)
    requires !Blank(cfg.sensorId) && !Blank(cfg.nodeName)
    requires metadataOnly == !(payload.MongodbActivity? && payload.activity.query.Some?)
    ensures Admissible(cfg.tenancy, EventFrom(cfg, s, seed, metadataOnly, payload))
  {
    hide Blank;
    PrefixNotBlank(EventFrom(cfg, s, seed, metadataOnly, payload).eventId);
  }

  lemma EmitAdmissible(cfg: ProcessorConfig, s: State, seed: Seed, payload: Payload)
    requires !Blank(cfg.sensorId) && !Blank(cfg.nodeName) && !payload.MongodbActivity?
    ensures forall e | e in Emit(cfg, s, seed, payload).1 :: Admissible(cfg.tenancy, e)
  {
    hide Blank, Admissible, EventFrom;
    EventAdmissible(cfg, s, seed, true, payload);
  }

  lemma CompletedAdmissible(cfg: ProcessorConfig, s: State, r: Request, reply: Option<Reply>)
    requires !Blank(cfg.sensorId) && !Blank(cfg.nodeName)
    ensures forall e | e in Completed(cfg, s, r, reply).1 :: Admissible(cfg.tenancy, e)
  {
    hide Blank, Admissible, EventFrom, Authenticated, ActivityOf, AuthOf;
    var c := GetConnection(s, r.conn);
    var session := if CarriesAuthentication(r.command) then SessionPrincipal(r, c) else None;
    var t := if CarriesAuthentication(r.command) then PutConnection(s, r.conn, Authenticated(r, c, reply)) else s;
    var activity := ActivityOf(cfg, r, reply);
    var seed := Seed(r.at, r.source, true, r.truncated);
    EventAdmissible(cfg, t, seed, activity.query.None?, MongodbActivity(activity));
    EmitAdmissible(cfg, t.(sequence := NextSequence(t.sequence)), seed, MongodbAuth(AuthOf(r, session, reply)));
  }

  /** Every event the processor emits, in any state and on any input, may stand in a
      batch of its assignment. */
  lemma EventsAdmissible(cfg: ProcessorConfig, s: State, input: Input)
    requires !Blank(cfg.sensorId) && !Blank(cfg.nodeName)
    ensures forall e | e in Step(cfg, s, input).1 :: Admissible(cfg.tenancy, e)
  {
    hide Blank, Admissible, EventFrom, Completed, Emit;
    forall t: State, seed: Seed, payload: Payload, e | !payload.MongodbActivity? && e in Emit(cfg, t, seed, payload).1
      ensures Admissible(cfg.tenancy, e)
    {
      EmitAdmissible(cfg, t, seed, payload);
    }
    forall t: State, r: Request, reply: Option<Reply>, e | e in Completed(cfg, t, r, reply).1
      ensures Admissible(cfg.tenancy, e)
    {
      CompletedAdmissible(cfg, t, r, reply);
    }
  }

  lemma HealthAdmissible(a: Assignment, now: Timestamp, ready: bool, dropped: nat, parseErrors: nat, spoolBytes: nat)
    requires !Blank(a.sensorId) && !Blank(a.nodeName)
    ensures Admissible(a.tenancy, HealthEvent(a, now, ready, dropped, parseErrors, spoolBytes))
  {
    hide Blank;
    PrefixNotBlank(HealthEvent(a, now, ready, dropped, parseErrors, spoolBytes).eventId);
  }

  /** Where the events of a turn come from: the processor of the same assignment, or the
      health report. */
  ghost predicate FromProcessor(cfg: ProcessorConfig, e: Event) {
    exists s: State, input: Input :: e in Step(cfg, s, input).1
  }

  ghost predicate FromHealth(a: Assignment, e: Event) {
    exists now, ready, dropped: nat, parseErrors: nat, spoolBytes: nat ::
      e == HealthEvent(a, now, ready, dropped, parseErrors, spoolBytes)
  }

  ghost predicate Supplied(cfg: ProcessorConfig, a: Assignment, turns: seq<Turn>) {
    forall e | e in Pushed(turns) :: FromProcessor(cfg, e) || FromHealth(a, e)
  }

  ghost predicate SameAssignment(cfg: ProcessorConfig, a: Assignment) {
    cfg.tenancy == a.tenancy && cfg.sensorId == a.sensorId && cfg.nodeName == a.nodeName
  }

  ghost predicate Named(a: Assignment) {
    NamedTenancy(a.tenancy) && !Blank(a.sensorId) && !Blank(a.nodeName)
  }

  lemma SuppliedAdmissible(cfg: ProcessorConfig, a: Assignment, e: Event)
    requires SameAssignment(cfg, a) && Named(a) && (FromProcessor(cfg, e) || FromHealth(a, e))
    ensures Admissible(a.tenancy, e)
  {
    hide Blank, Admissible, Step, HealthEvent;
    if FromProcessor(cfg, e) {
      var s: State, input: Input :| e in Step(cfg, s, input).1;
      EventsAdmissible(cfg, s, input);
    } else {
      var now, ready, dropped: nat, parseErrors: nat, spoolBytes: nat :|
        e == HealthEvent(a, now, ready, dropped, parseErrors, spoolBytes);
      HealthAdmissible(a, now, ready, dropped, parseErrors, spoolBytes);
    }
  }

  lemma {:induction false} FlushedContents(flushes: seq<Flush>, f: Flush, e: Event)
    requires f in flushes && e in f.batch.events
    ensures e in Contents(flushes)
  {
    if f in flushes[..|flushes| - 1] {
      FlushedContents(flushes[..|flushes| - 1], f, e);
    }
  }

  /** Each flush is the batch its own buffer makes. */
  ghost predicate Made(a: Assignment, f: Flush) {
    exists now: Timestamp :: f.batch == BatchOf(a, now, f.batch.events)
  }

  lemma {:induction false} FlushesMade(a: Assignment, turns: seq<Turn>, f: Flush)
    requires f in Batcher.After(a, turns).flushes
    ensures Made(a, f)
  {
    hide BatchOf;
    var init, turn := turns[..|turns| - 1], turns[|turns| - 1];
    var before := Batcher.After(a, init);
    if f in before.flushes {
      FlushesMade(a, init, f);
    } else {
      var events := before.buffer + Pushes(turn);
      assert f.batch == BatchOf(a, turn.now, events);
      BatchEvents(a, turn.now, events);
    }
  }

  lemma BatchEvents(a: Assignment, now: Timestamp, events: seq<Event>)
    ensures BatchOf(a, now, events).events == events
  {
  }

  lemma MadeValid(a: Assignment, f: Flush)
    requires Named(a) && Made(a, f) && f.batch.events != []
    requires forall e | e in f.batch.events :: Admissible(a.tenancy, e)
    ensures Validate(f.batch).Ok? && f.batch.tenancy == a.tenancy
  {
    hide Blank, Validate, Admissible;
    var now: Timestamp :| f.batch == BatchOf(a, now, f.batch.events);
    PrefixNotBlank(f.batch.batchId);
    ValidationMeans(f.batch);
  }

  /** Whatever the processor and the health report supply, under non-blank assignment,
      sensor and node names, every batch the batcher flushes passes validation and
      carries the assignment's identity. */
  lemma FlushedBatchesValid(cfg: ProcessorConfig, a: Assignment, turns: seq<Turn>, f: Flush)
    requires SameAssignment(cfg, a) && Named(a) && Supplied(cfg, a, turns)
    requires f in Batcher.After(a, turns).flushes
    ensures Validate(f.batch).Ok? && f.batch.tenancy == a.tenancy
  {
    hide Blank, Validate, Admissible, Named, FromProcessor, FromHealth, SameAssignment, Batcher.After;
    BatcherConservation(a, turns);
    forall e | e in f.batch.events ensures Admissible(a.tenancy, e) {
      FlushedContents(Batcher.After(a, turns).flushes, f, e);
      assert e in Pushed(turns);
      SuppliedAdmissible(cfg, a, e);
    }
    FlushesMade(a, turns, f);
    MadeValid(a, f);
  }

  /** The Outpost admits such a batch: with the right credential, and text that reads back as
      the batch it was written from, only a failure to write the enriched batch is left.
      What is stored is valid and takes its identities from the trusted mapping alone. */
  lemma FlushedBatchesAdmitted(
    cfg: ProcessorConfig, a: Assignment, turns: seq<Turn>, f: Flush, config: Config, m: Mappings, header: Option<Bytes>
  )
    requires SameAssignment(cfg, a) && Named(a) && Supplied(cfg, a, turns)
    requires f in Batcher.After(a, turns).flushes
    requires config.tenancy == a.tenancy && (config.internalToken.Some? ==> header == Some(Ascii("Bearer ") + config.internalToken.value))
    requires a.codec.encode(f.batch).Some? && a.codec.decode(a.codec.encode(f.batch).value) == Some(f.batch)
    ensures var enriched := Enriched(m.identities, m.pods, config.clusterName, f.batch);
            var stored := a.codec.encode(enriched);
            && Validate(enriched).Ok?
            && Admit(a.codec, config, m, header, a.codec.encode(f.batch).value)
               == (if stored.Some? then Ok(stored.value) else Err(500))
            && forall i :: 0 <= i < |enriched.events| ==>
                 IdentityFrom(m.identities, f.batch.events[i].payload, enriched.events[i].identity)
  {
    hide Validate, Named, Supplied, SameAssignment, Batcher.After;
    FlushedBatchesValid(cfg, a, turns, f);
    if config.internalToken.Some? { BearerMeans(header, config.internalToken.value); }
    EnrichmentSafe(m.identities, m.pods, config.clusterName, f.batch);
  }
}
