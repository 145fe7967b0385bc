/** The Observer's batcher (`run_batcher`, `flush_batch`, `sensor_health_event`;
    crates/observer/src/main.rs): events are buffered and flushed to the spool when
    enough have come, when the timer fires, and when the channel closes. */
module Batcher {
  import opened Primitives
  import opened Json
  import opened Schema
  import opened Spool
  import opened SpoolOperations
  import opened Hops
  import T = BsonTree

  /** `digest` is SHA-256 and `nanoBytes` the little-endian bytes of a Unix time in
      nanoseconds. */
  datatype Assignment = Assignment(
    tenancy: Tenancy, sensorId: Bytes, nodeName: Bytes, maxEvents: nat, emitHealth: bool,
    codec: Codec, digest: Bytes -> Bytes, nanoBytes: Timestamp -> Bytes
  )

  datatype Flush = Flush(batch: Batch, stored: bool)

  /** The buffer, what was flushed so far, and the two counters kept about it. */
  datatype Batching = Batching(buffer: seq<Event>, flushes: seq<Flush>, batchesSpooled: nat, droppedEvents: nat)

  const START := Batching([], [], 0, 0)

  /** One pass through the loop: what it received, when, and whether the spool would take
      a flush at that moment. */
  datatype Turn =
    | Received(event: Event, now: Timestamp, accepts: bool)
    | Tick(health: Option<Event>, now: Timestamp, accepts: bool)

  // ---------------------------------------------------------------- identities

  function EventIds(events: seq<Event>): Bytes {
    if events == [] then [] else EventIds(events[..|events| - 1]) + events[|events| - 1].eventId
  }

  function HexId(prefix: string, digest: Bytes): Bytes {
    Ascii(prefix) + EncodeHex(digest[..Min(16, |digest|)])
  }

  function BatchOf(a: Assignment, now: Timestamp, events: seq<Event>): Batch {
    Batch(
      BATCH_SCHEMA_VERSION, HexId("batch-", a.digest(a.sensorId + a.nanoBytes(now) + EventIds(events))),
      a.tenancy, now, events)
  }

  function HealthEvent(
    a: Assignment, now: Timestamp, ready: bool, dropped: nat, parseErrors: nat, spoolBytes: nat
  ): Event {
    Event(
      EVENT_SCHEMA_VERSION, HexId("health-", a.digest(a.sensorId + a.nanoBytes(now))), 0, a.tenancy,
      Capture(a.sensorId, a.nodeName, 0, Complete, true, false), None, None,
      SensorHealth(
        if ready then Ascii("ok") else Ascii("degraded"), Ascii("observer"), Ascii("periodic sensor status"),
        SaturateU64(dropped), parseErrors, spoolBytes))
  }

  // ---------------------------------------------------------------- one turn

  function Flushed(a: Assignment, s: Batching, now: Timestamp, stored: bool): Batching {
    if s.buffer == [] then s
    else
      Batching(
        [], s.flushes + [Flush(BatchOf(a, now, s.buffer), stored)],
        if stored then s.batchesSpooled + 1 else s.batchesSpooled,
        if stored then s.droppedEvents else s.droppedEvents + |s.buffer|)
  }

  function Pushes(turn: Turn): seq<Event> {
    match turn
    case Received(event, _, _) => [event]
    case Tick(health, _, _) => if health.Some? then [health.value] else []
  }

  function Take(a: Assignment, s: Batching, turn: Turn): Batching {
    var s := s.(buffer := s.buffer + Pushes(turn));
    if |s.buffer| >= a.maxEvents || (turn.Tick? && s.buffer != []) then Flushed(a, s, turn.now, turn.accepts) else s
  }

  function After(a: Assignment, turns: seq<Turn>): Batching {
    if turns == [] then START else Take(a, After(a, turns[..|turns| - 1]), turns[|turns| - 1])
  }

  // ---------------------------------------------------------------- the loop

  /** What wakes the loop; `sinceHealth` says whether a minute has passed since the last
      health event, `otherDrops` what the other two drop counters add up to. */
  datatype Wake =
    | Channel(event: Event)
    | Timer(sinceHealth: bool, ready: bool, otherDrops: nat, parseErrors: nat)

  method SensorHealthEvent(
    spool: DurableSpool, a: Assignment, s: Batching, now: Timestamp, ready: bool, otherDrops: nat, parseErrors: nat
  )
    returns (e: Event)
    requires spool.Valid()
    ensures e == HealthEvent(
                   a, now, ready, otherDrops + s.droppedEvents, parseErrors, SaturateU64(Total(spool.disk.pending)))
    ensures e.schemaVersion == 1 && e.tenancy == a.tenancy && e.monotonicNs == 0
    ensures e.capture.sensorId == a.sensorId && e.capture.nodeName == a.nodeName && e.capture.metadataOnly && !e.capture.truncated
    ensures Ascii("health-") <= e.eventId
    ensures e.payload == SensorHealth(
                           if ready then Ascii("ok") else Ascii("degraded"), Ascii("observer"), Ascii("periodic sensor status"),
                           Min(otherDrops + s.droppedEvents, 0xFFFF_FFFF_FFFF_FFFF), parseErrors,
                           Min(Total(spool.disk.pending), 0xFFFF_FFFF_FFFF_FFFF))
  {
    var _, bytes := DirectoryStats(spool.disk.pending);
    e := HealthEvent(a, now, ready, otherDrops + s.droppedEvents, parseErrors, bytes);
  }

  /** `flush_batch`: the buffered events become one batch, which is stored unless the
      spool is full or the batch cannot be written as JSON; either way the buffer is
      empty afterwards and the counters say what happened. */
  method FlushBatch(spool: DurableSpool, a: Assignment, s: Batching, now: Timestamp) returns (t: Batching, stored: bool)
    requires spool.Valid()
    modifies spool
    ensures spool.Valid() && t == Flushed(a, s, now, stored)
    ensures s.buffer == [] || !stored ==> spool.disk == old(spool.disk) && spool.log == old(spool.log)
    ensures s.buffer != [] ==>
              var body := a.codec.encode(BatchOf(a, now, s.buffer));
              && (stored <==> body.Some? && Takes(spool, old(spool.disk), body.value))
              && (stored ==> var id := spool.hash(body.value); id in spool.disk.pending || id in spool.disk.quarantine)
              && (stored ==> spool.log == old(spool.log) || spool.log == old(spool.log) + StoreCalls(body.value))
    ensures Lodged(spool.hash, spool.disk, a, t.flushes[|s.flushes|..]) && NothingLeft(old(spool.disk), spool.disk)
  {
    hide DurableSpool.Valid, Room;
    if s.buffer == [] {
      return s, false;
    }
    var ids: Bytes := [];
    for i := 0 to |s.buffer|
      invariant ids == EventIds(s.buffer[..i])
    {
      assert s.buffer[..i + 1][..i] == s.buffer[..i];
      ids := ids + s.buffer[i].eventId;
    }
    assert s.buffer[..|s.buffer|] == s.buffer;
    var batch := Batch(
      BATCH_SCHEMA_VERSION, HexId("batch-", a.digest(a.sensorId + a.nanoBytes(now) + ids)), a.tenancy, now, s.buffer);
    var body := a.codec.encode(batch);
    stored := false;
    if body.Some? {
      var receipt := spool.Enqueue(body.value);
      stored := receipt.Ok?;
    }
    t := s.(buffer := [], flushes := s.flushes + [Flush(batch, stored)]);
    if stored {
      t := t.(batchesSpooled := t.batchesSpooled + 1);
    } else {
      t := t.(droppedEvents := t.droppedEvents + |batch.events|);
    }
  }

  ghost predicate Takes(spool: DurableSpool, d: Disk, body: Bytes) {
    spool.hash(body) in d.pending || spool.hash(body) in d.quarantine || Room(d, spool.maxBytes, |body|)
  }

  /** Each flush that counts as stored is in the spool, pending or quarantined. */
  ghost predicate Lodged(hash: Bytes -> Id, d: Disk, a: Assignment, flushes: seq<Flush>) {
    forall f | f in flushes && f.stored ::
      && a.codec.encode(f.batch).Some?
      && var id := hash(a.codec.encode(f.batch).value); id in d.pending || id in d.quarantine
  }

  lemma LodgedTogether(hash: Bytes -> Id, was: Disk, now: Disk, a: Assignment, before: seq<Flush>, after: seq<Flush>)
    requires Lodged(hash, was, a, before) && NothingLeft(was, now) && before <= after
    requires Lodged(hash, now, a, after[|before|..])
    ensures Lodged(hash, now, a, after)
  {
    assert after == before + after[|before|..];
    forall f | f in after && f.stored
      ensures a.codec.encode(f.batch).Some?
      ensures var id := hash(a.codec.encode(f.batch).value); id in now.pending || id in now.quarantine
    {
      if f in before {
        var id := hash(a.codec.encode(f.batch).value);
        assert id in was.pending.Keys + was.quarantine.Keys;
      }
    }
  }

  /** What the spool holds it goes on holding. */
  ghost predicate NothingLeft(was: Disk, now: Disk) {
    was.pending.Keys + was.quarantine.Keys <= now.pending.Keys + now.quarantine.Keys
  }

  /** The turn a wake-up leads to. */
  ghost predicate Leads(a: Assignment, wake: Wake, now: Timestamp, turn: Turn) {
    && turn.now == now
    && match wake
       case Channel(event) => turn.Received? && turn.event == event
       case Timer(sinceHealth, ready, otherDrops, parseErrors) =>
         && turn.Tick? && (turn.health.Some? <==> a.emitHealth && sinceHealth)
         && (turn.health.Some? ==>
               exists drops: nat, bytes: nat :: turn.health == Some(HealthEvent(a, now, ready, drops, parseErrors, bytes)))
  }

  /** The body of the loop. */
  method TakeTurn(spool: DurableSpool, a: Assignment, s: Batching, wake: Wake, now: Timestamp)
    returns (t: Batching, ghost turn: Turn)
    requires spool.Valid()
    modifies spool
    ensures spool.Valid() && Leads(a, wake, now, turn) && t == Take(a, s, turn)
    ensures s.flushes <= t.flushes && Lodged(spool.hash, spool.disk, a, t.flushes[|s.flushes|..]) && NothingLeft(old(spool.disk), spool.disk)
  {
    hide DurableSpool.Valid, Flushed, HealthEvent, Lodged;
    FlushesGrow(a, s, now);
    NoneToLodge(spool, a, s.flushes);
    var timerFired := false;
    t := s;
    match wake {
      case Channel(event) =>
        t := t.(buffer := t.buffer + [event]);
        turn := Received(event, now, false);
      case Timer(sinceHealth, ready, otherDrops, parseErrors) =>
        timerFired := true;
        turn := Tick(None, now, false);
        if a.emitHealth && sinceHealth {
          var health := SensorHealthEvent(spool, a, s, now, ready, otherDrops, parseErrors);
          t := t.(buffer := t.buffer + [health]);
          turn := Tick(Some(health), now, false);
        }
    }
    assert t == s.(buffer := s.buffer + Pushes(turn));
    if |t.buffer| >= a.maxEvents || (timerFired && t.buffer != []) {
      var stored;
      FlushesGrow(a, t, now);
      t, stored := FlushBatch(spool, a, t, now);
      turn := turn.(accepts := stored);
    }
  }

  lemma FlushesGrow(a: Assignment, s: Batching, now: Timestamp)
    ensures forall stored: bool :: s.flushes <= Flushed(a, s, now, stored).flushes
  {
  }

  lemma NoneToLodge(spool: DurableSpool, a: Assignment, flushes: seq<Flush>)
    ensures Lodged(spool.hash, spool.disk, a, flushes[|flushes|..])
  {
  }

  /** `run_batcher`, from the first wake-up to the closing of the channel. Its batches
      hold exactly the events pushed, in order; each batch that counts as spooled is in
      the spool; and every event is in such a batch or counted as dropped. */
  method RunBatcher(spool: DurableSpool, a: Assignment, wakes: seq<Wake>, clock: nat -> Timestamp)
    returns (s: Batching, ghost turns: seq<Turn>, ghost last: bool)
    requires spool.Valid()
    modifies spool
    ensures spool.Valid()
    ensures |turns| == |wakes| && forall i :: 0 <= i < |wakes| ==> Leads(a, wakes[i], clock(i), turns[i])
    ensures s == Flushed(a, After(a, turns), clock(|wakes|), last)
    ensures Lodged(spool.hash, spool.disk, a, s.flushes)
    ensures s.buffer == [] && Contents(s.flushes) == Pushed(turns)
    ensures StoredEvents(s.flushes) + s.droppedEvents == |Pushed(turns)| && StoredBatches(s.flushes) == s.batchesSpooled
  {
    hide DurableSpool.Valid, Flushed, HealthEvent, Take, Leads, Contents, StoredEvents, StoredBatches, Pushed, Lodged,
      NothingLeft;
    s := START;
    turns := [];
    NoneToLodge(spool, a, []);
    for i := 0 to |wakes|
      invariant spool.Valid() && |turns| == i
      invariant forall j :: 0 <= j < i ==> Leads(a, wakes[j], clock(j), turns[j])
      invariant s == After(a, turns) && Lodged(spool.hash, spool.disk, a, s.flushes)
    {
      ghost var turn;
      ghost var before, was := s.flushes, spool.disk;
      s, turn := TakeTurn(spool, a, s, wakes[i], clock(i));
      LodgedTogether(spool.hash, was, spool.disk, a, before, s.flushes);
      assert (turns + [turn])[..i] == turns;
      turns := turns + [turn];
    }
    ghost var before, was := s.flushes, spool.disk;
    FlushesGrow(a, s, clock(|wakes|));
    s, last := FlushBatch(spool, a, s, clock(|wakes|));
    LodgedTogether(spool.hash, was, spool.disk, a, before, s.flushes);
    ClosedBatcher(a, turns, clock(|wakes|), last);
  }

  // ---------------------------------------------------------------- conservation

  function Pushed(turns: seq<Turn>): seq<Event> {
    if turns == [] then [] else Pushed(turns[..|turns| - 1]) + Pushes(turns[|turns| - 1])
  }

  function Contents(flushes: seq<Flush>): seq<Event> {
    if flushes == [] then [] else Contents(flushes[..|flushes| - 1]) + flushes[|flushes| - 1].batch.events
  }

  function StoredEvents(flushes: seq<Flush>): nat {
    if flushes == [] then 0
    else
      var last := flushes[|flushes| - 1];
      StoredEvents(flushes[..|flushes| - 1]) + if last.stored then |last.batch.events| else 0
  }

  function StoredBatches(flushes: seq<Flush>): nat {
    if flushes == [] then 0
    else StoredBatches(flushes[..|flushes| - 1]) + if flushes[|flushes| - 1].stored then 1 else 0
  }

  function Limit(a: Assignment): nat { if a.maxEvents == 0 then 1 else a.maxEvents }

  ghost predicate Balanced(a: Assignment, s: Batching, pushed: seq<Event>) {
    && Contents(s.flushes) + s.buffer == pushed
    && (forall f | f in s.flushes :: f.batch.events != [] && |f.batch.events| <= Limit(a) && f.batch.tenancy == a.tenancy)
    && StoredEvents(s.flushes) + s.droppedEvents + |s.buffer| == |pushed|
    && StoredBatches(s.flushes) == s.batchesSpooled
  }

  lemma FlushBalanced(a: Assignment, s: Batching, pushed: seq<Event>, now: Timestamp, stored: bool)
    requires Balanced(a, s, pushed) && |s.buffer| <= Limit(a)
    ensures Balanced(a, Flushed(a, s, now, stored), pushed) && Flushed(a, s, now, stored).buffer == []
  {
    if s.buffer != [] {
      var t := Flushed(a, s, now, stored);
      assert t.flushes[..|t.flushes| - 1] == s.flushes;
      assert Contents(t.flushes) == Contents(s.flushes) + s.buffer;
    }
  }

  /** Over any interleaving of arrivals and ticks, the flushed batches and the buffer hold
      exactly the events pushed, in order; no batch is empty or over the limit; every
      event is spooled, counted as dropped, or still buffered. */
  lemma {:induction false} BatcherConservation(a: Assignment, turns: seq<Turn>)
    ensures Balanced(a, After(a, turns), Pushed(turns)) && |After(a, turns).buffer| < Limit(a)
  {
    hide Flushed, Contents;
    if turns == [] {
      NothingPushed(a);
    } else {
      var init, turn := turns[..|turns| - 1], turns[|turns| - 1];
      BatcherConservation(a, init);
      var s := After(a, init);
      var t := s.(buffer := s.buffer + Pushes(turn));
      assert Contents(t.flushes) + t.buffer == Pushed(turns);
      FlushBalanced(a, t, Pushed(turns), turn.now, turn.accepts);
    }
  }

  lemma NothingPushed(a: Assignment)
    ensures Balanced(a, START, []) && |START.buffer| < Limit(a)
  {
  }

  /** When batches go out. After a tick nothing is left in the buffer. An arrival flushes the
      buffer with it exactly when that makes `maxEvents` events or more, and otherwise joins
      it. */
  lemma WhenFlushed(a: Assignment, s: Batching, turn: Turn)
    ensures var t := Take(a, s, turn);
            && (turn.Tick? ==> t.buffer == [])
            && (turn.Received? && |s.buffer| + 1 >= a.maxEvents ==>
                  && t.buffer == [] && |t.flushes| == |s.flushes| + 1
                  && t.flushes[|s.flushes|].batch.events == s.buffer + [turn.event])
            && (turn.Received? && |s.buffer| + 1 < a.maxEvents ==> t == s.(buffer := s.buffer + [turn.event]))
  {
  }

  /** The batch carries its assignment and the moment it was made, and its id is `batch-` and
      the hex digits of the digest of sensor, moment and event ids, in that order. */
  lemma BatchReads(a: Assignment, now: Timestamp, events: seq<Event>)
    ensures var b := BatchOf(a, now, events);
            && b.schemaVersion == 1 && b.tenancy == a.tenancy && b.createdAt == now && b.events == events
            && var digest := a.digest(a.sensorId + a.nanoBytes(now) + Concat(IdsOf(events)));
               b.batchId == Ascii("batch-") + T.HexText(if |digest| <= 16 then digest else digest[..16])
  {
    hide EncodeHex, T.HexText, IdsOf;
    IdsJoined(events);
    var digest := a.digest(a.sensorId + a.nanoBytes(now) + EventIds(events));
    T.HexDigits(digest[..Min(16, |digest|)]);
    assert |digest| <= 16 ==> digest[..|digest|] == digest;
  }

  function IdsOf(events: seq<Event>): (ids: seq<Bytes>)
    ensures |ids| == |events|
  {
    seq(|events|, i requires 0 <= i < |events| => events[i].eventId)
  }

  lemma {:induction false} IdsJoined(events: seq<Event>)
    ensures EventIds(events) == Concat(IdsOf(events))
  {
    if events == [] {
    } else {
      var init, last := events[..|events| - 1], events[|events| - 1];
      IdsJoined(init);
      assert IdsOf(events) == IdsOf(init) + [last.eventId];
      ConcatMore(IdsOf(init), last.eventId);
    }
  }

  lemma {:induction false} ConcatMore(pieces: seq<Bytes>, last: Bytes)
    ensures Concat(pieces + [last]) == Concat(pieces) + last
  {
    if pieces == [] {
      assert [last][1..] == [] && pieces + [last] == [last];
    } else {
      ConcatMore(pieces[1..], last);
      assert (pieces + [last])[1..] == pieces[1..] + [last];
    }
  }

  /** The flush on closing is one more tick, so what holds after every turn holds of it. */
  lemma ClosingIsATick(a: Assignment, turns: seq<Turn>, now: Timestamp, stored: bool)
    ensures Flushed(a, After(a, turns), now, stored) == After(a, turns + [Tick(None, now, stored)])
  {
    hide Flushed;
    var more := turns + [Tick(None, now, stored)];
    assert more[..|more| - 1] == turns;
    var s := After(a, turns);
    assert s.buffer + [] == s.buffer;
    NothingToFlush(a, s, now, stored);
  }

  lemma NothingToFlush(a: Assignment, s: Batching, now: Timestamp, stored: bool)
    ensures s.buffer == [] ==> Flushed(a, s, now, stored) == s
  {
  }

  /** Once the channel has closed nothing is left in the buffer. */
  lemma ClosedBatcher(a: Assignment, turns: seq<Turn>, now: Timestamp, stored: bool)
    ensures var s := Flushed(a, After(a, turns), now, stored);
            && s.buffer == [] && Contents(s.flushes) == Pushed(turns)
            && StoredEvents(s.flushes) + s.droppedEvents == |Pushed(turns)|
            && StoredBatches(s.flushes) == s.batchesSpooled
            && (forall f | f in s.flushes :: f.batch.events != [] && |f.batch.events| <= Limit(a))
  {
    hide Flushed, Contents, StoredEvents, StoredBatches;
    BatcherConservation(a, turns);
    FlushBalanced(a, After(a, turns), Pushed(turns), now, stored);
  }
}
