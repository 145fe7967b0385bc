/** The operations of the two hosts as behaviours of the delivery protocol: whatever calls
    an operation logs on its spool, the protocol allows one after the other. */
module HostRuns {
  import opened Primitives
  import opened Schema
  import opened Spool
  import opened SpoolOperations
  import opened Provenance
  import opened Hops
  import opened Delivery
  import B = Batcher

  lemma Extend(w: World, steps: seq<Step>, step: Step) returns (more: seq<Step>)
    requires Behaviour(w, steps) && Can(w, Reached(w, steps), step)
    ensures more == steps + [step] && Behaviour(w, more) && Reached(w, more) == Next(w, Reached(w, steps), step)
  {
    hide Can, Next;
    more := steps + [step];
    assert more[..|more| - 1] == steps;
  }

  // ---------------------------------------------------------------- calls one after the other

  /** The protocol lets the Observer make this call, as far as others are concerned. */
  ghost predicate ObserverMay(w: World, s: Protocol, c: Call) {
    && Brings(w.occurs, c) && Allowed(s.replies, ObserverVerdict, c)
    && (c.Create? ==> exists b: Batch :: w.codec.encode(b) == Some(c.body))
  }

  ghost predicate OutpostMay(w: World, s: Protocol, c: Call) {
    Brings(w.occurs, c) && Allowed(s.receipts, OutpostVerdict, c) && (c.Create? ==> Admitted(w, s.posts, c.body))
  }

  function AllCreated(created: set<Bytes>, calls: seq<Call>): set<Bytes> {
    if calls == [] then created else Created(AllCreated(created, calls[..|calls| - 1]), calls[|calls| - 1])
  }

  lemma {:induction false} NoneCreated(created: set<Bytes>, calls: seq<Call>)
    requires forall c | c in calls :: !c.Create?
    ensures AllCreated(created, calls) == created
  {
    if calls == [] {
    } else {
      NoneCreated(created, calls[..|calls| - 1]);
      assert calls[|calls| - 1] in calls;
    }
  }

  lemma {:induction false} ObserverRuns(w: World, steps: seq<Step>, calls: seq<Call>) returns (more: seq<Step>)
    requires Behaviour(w, steps)
    requires Run(w.hash, w.observerMax, Reached(w, steps).observer, calls)
    requires forall c | c in calls :: ObserverMay(w, Reached(w, steps), c)
    ensures steps <= more && Behaviour(w, more)
    ensures var s := Reached(w, steps);
            Reached(w, more) == s.(observer := After(w.hash, s.observer, calls), flushed := AllCreated(s.flushed, calls))
    decreases |calls|
  {
    hide Behaviour, Reached, Enabled, Apply, ObserverMay, Created;
    if calls == [] {
      more := steps;
    } else {
      var init, last := calls[..|calls| - 1], calls[|calls| - 1];
      assert forall c | c in init :: c in calls;
      more := ObserverRuns(w, steps, init);
      assert last in calls;
      more := ObserverCalls(w, steps, more, last);
    }
  }

  /** One call more, allowed by what was there at the start. */
  lemma ObserverCalls(w: World, steps: seq<Step>, sofar: seq<Step>, c: Call) returns (more: seq<Step>)
    requires Behaviour(w, sofar) && Reached(w, sofar).replies == Reached(w, steps).replies
    requires Enabled(w.hash, w.observerMax, Reached(w, sofar).observer, c) && ObserverMay(w, Reached(w, steps), c)
    ensures sofar <= more && Behaviour(w, more)
    ensures var s := Reached(w, sofar);
            Reached(w, more) == s.(observer := Apply(w.hash, s.observer, c), flushed := Created(s.flushed, c))
  {
    hide Behaviour, Reached, Enabled, Apply, Brings, Allowed;
    more := Extend(w, sofar, ObserverCall(c));
  }

  lemma {:induction false} OutpostRuns(w: World, steps: seq<Step>, calls: seq<Call>) returns (more: seq<Step>)
    requires Behaviour(w, steps)
    requires Run(w.hash, w.outpostMax, Reached(w, steps).outpost, calls)
    requires forall c | c in calls :: OutpostMay(w, Reached(w, steps), c)
    ensures steps <= more && Behaviour(w, more)
    ensures var s := Reached(w, steps);
            Reached(w, more) == s.(outpost := After(w.hash, s.outpost, calls), stored := AllCreated(s.stored, calls))
    decreases |calls|
  {
    hide Behaviour, Reached, Enabled, Apply, OutpostMay, Created;
    if calls == [] {
      more := steps;
    } else {
      var init, last := calls[..|calls| - 1], calls[|calls| - 1];
      assert forall c | c in init :: c in calls;
      more := OutpostRuns(w, steps, init);
      assert last in calls;
      more := OutpostCalls(w, steps, more, last);
    }
  }

  lemma OutpostCalls(w: World, steps: seq<Step>, sofar: seq<Step>, c: Call) returns (more: seq<Step>)
    requires Behaviour(w, sofar)
    requires Reached(w, sofar).receipts == Reached(w, steps).receipts && Reached(w, sofar).posts == Reached(w, steps).posts
    requires Enabled(w.hash, w.outpostMax, Reached(w, sofar).outpost, c) && OutpostMay(w, Reached(w, steps), c)
    ensures sofar <= more && Behaviour(w, more)
    ensures var s := Reached(w, sofar);
            Reached(w, more) == s.(outpost := Apply(w.hash, s.outpost, c), stored := Created(s.stored, c))
  {
    hide Behaviour, Reached, Enabled, Apply, Brings, Allowed, Admitted;
    more := Extend(w, sofar, OutpostCall(c));
  }

  // ---------------------------------------------------------------- what methods log

  /** The spool object is the host's spool, at this point of the behaviour. */
  ghost predicate IsSpool(hash: Bytes -> Id, max: nat, spool: DurableSpool, s: Spool.State)
    reads spool
  {
    spool.Valid() && spool.hash == hash && spool.maxBytes == max && Spool.State(spool.disk, spool.op) == s
  }

  /** What is logged after `before` runs from where `before` led. */
  lemma LoggedRun(spool: DurableSpool, before: seq<Call>, s: Spool.State)
    requires spool.Valid() && before <= spool.log && After(spool.hash, spool.start, before) == s
    ensures var calls := spool.log[|before|..];
            && Run(spool.hash, spool.maxBytes, s, calls)
            && After(spool.hash, s, calls) == Spool.State(spool.disk, spool.op)
  {
    hide Run, After, Sound;
    assert spool.log == before + spool.log[|before|..];
    RunSplit(spool.hash, spool.maxBytes, spool.start, before, spool.log[|before|..]);
  }

  /** Verdicts are those of replies that have arrived. */
  ghost predicate FromReplies(replies: set<(Id, nat)>, decide: nat -> Verdict, answer: Bytes -> Verdict, d: Disk) {
    forall id | id in d.pending && answer(d.pending[id]) != Retry :: Replied(replies, id, decide, answer(d.pending[id]))
  }

  lemma ObedientMay(
    occurs: Bytes -> bool, replies: set<(Id, nat)>, decide: nat -> Verdict, answer: Bytes -> Verdict, d: Disk,
    before: seq<Call>, after: seq<Call>
  )
    requires Obedient(answer, d, before, after) && FromReplies(replies, decide, answer, d)
    ensures forall c | c in after[|before|..] :: Brings(occurs, c) && Allowed(replies, decide, c) && !c.Create?
  {
    hide Replied;
    forall c | c in after[|before|..] ensures Brings(occurs, c) && Allowed(replies, decide, c) && !c.Create? {
      var i :| 0 <= i < |after[|before|..]| && after[|before|..][i] == c;
      assert Obeys(answer, d, after[|before| + i]);
    }
  }

  /** A delivery pass at the Observer extends the behaviour. */
  method ObserverPass(spool: DurableSpool, answer: Bytes -> Verdict, ghost w: World, ghost steps: seq<Step>, codec: Codec)
    returns (r: Result<(), SendError>, ghost more: seq<Step>)
    requires Behaviour(w, steps) && IsSpool(w.hash, w.observerMax, spool, Reached(w, steps).observer)
    requires FromReplies(Reached(w, steps).replies, ObserverVerdict, answer, spool.disk)
    modifies spool
    ensures steps <= more && Behaviour(w, more)
    ensures IsSpool(w.hash, w.observerMax, spool, Reached(w, more).observer)
    ensures Reached(w, more) == Reached(w, steps).(observer := Reached(w, more).observer)
    ensures r.Ok? ==> Reached(w, more).observer.disk.pending == map[]
  {
    hide Behaviour, Reached, Run, After, Sound, FromReplies, Obedient, OnlyGrew, Settles, Kept, Brings, Allowed, Less;
    ghost var was, log := spool.disk, spool.log;
    r := DeliverSpool(spool, codec, answer);
    PrefixOf(answer, was, log, spool.log);
    LoggedRun(spool, log, Reached(w, steps).observer);
    ObedientMay(w.occurs, Reached(w, steps).replies, ObserverVerdict, answer, was, log, spool.log);
    more := ObserverRuns(w, steps, spool.log[|log|..]);
    NoneCreated(Reached(w, steps).flushed, spool.log[|log|..]);
  }

  lemma PrefixOf(answer: Bytes -> Verdict, d: Disk, before: seq<Call>, after: seq<Call>)
    requires Obedient(answer, d, before, after)
    ensures before <= after
  {
  }

  /** A delivery pass at the Outpost extends the behaviour. */
  method OutpostPass(spool: DurableSpool, answer: Bytes -> Verdict, ghost w: World, ghost steps: seq<Step>, codec: Codec)
    returns (r: Result<(), SendError>, ghost more: seq<Step>)
    requires Behaviour(w, steps) && IsSpool(w.hash, w.outpostMax, spool, Reached(w, steps).outpost)
    requires FromReplies(Reached(w, steps).receipts, OutpostVerdict, answer, spool.disk)
    modifies spool
    ensures steps <= more && Behaviour(w, more)
    ensures IsSpool(w.hash, w.outpostMax, spool, Reached(w, more).outpost)
    ensures Reached(w, more) == Reached(w, steps).(outpost := Reached(w, more).outpost)
    ensures r.Ok? ==> Reached(w, more).outpost.disk.pending == map[]
  {
    hide Behaviour, Reached, Run, After, Sound, FromReplies, Obedient, OnlyGrew, Settles, Kept, Brings, Allowed, Less;
    ghost var was, log := spool.disk, spool.log;
    r := DeliverSpool(spool, codec, answer);
    PrefixOf(answer, was, log, spool.log);
    LoggedRun(spool, log, Reached(w, steps).outpost);
    ObedientMay(w.occurs, Reached(w, steps).receipts, OutpostVerdict, answer, was, log, spool.log);
    more := OutpostRuns(w, steps, spool.log[|log|..]);
    NoneCreated(Reached(w, steps).stored, spool.log[|log|..]);
  }

  // ---------------------------------------------------------------- storing a body

  lemma StoreMay(occurs: Bytes -> bool, replies: set<(Id, nat)>, decide: nat -> Verdict, body: Bytes)
    requires occurs(body)
    ensures forall c | c in StoreCalls(body) :: Brings(occurs, c) && Allowed(replies, decide, c) && (c.Create? ==> c.body == body)
  {
  }

  lemma NothingRuns(hash: Bytes -> Id, max: nat, s: Spool.State)
    ensures Run(hash, max, s, []) && After(hash, s, []) == s
  {
  }

  /** `accept_batch` on a posted body extends the behaviour, and ends with the reply. */
  method AcceptPosted(
    spool: DurableSpool, codec: Codec, config: Config, m: Mappings, header: Option<Bytes>, body: Bytes,
    ghost w: World, ghost steps: seq<Step>, ghost id: Id
  )
    returns (status: nat, ghost more: seq<Step>)
    requires w.codec == codec && w.config == config
    requires Behaviour(w, steps) && IsSpool(w.hash, w.outpostMax, spool, Reached(w, steps).outpost)
    requires (id, body, header) in Reached(w, steps).posts
    requires Admit(codec, config, m, header, body).Ok? ==> w.occurs(Admit(codec, config, m, header, body).value)
    modifies spool
    ensures steps <= more && Behaviour(w, more)
    ensures IsSpool(w.hash, w.outpostMax, spool, Reached(w, more).outpost)
    ensures (id, status) in Reached(w, more).replies
  {
    hide Behaviour, Reached, Run, After, Sound, Admit, Room, Brings, Allowed, OutpostMay;
    ghost var log, s := spool.log, Reached(w, steps).outpost;
    var receipt;
    status, receipt := AcceptBatch(spool, codec, config, m, header, body);
    more := steps;
    if status == 202 {
      NotRefused202(codec, config, m, header, body);
      ghost var e := Admit(codec, config, m, header, body).value;
      if spool.log == log {
        more := AnswerStored(w, more, id, body, m, header);
      } else {
        LoggedRun(spool, log, s);
        assert spool.log[|log|..] == StoreCalls(e);
        StoreMayAtOutpost(w, Reached(w, steps), id, body, m, header);
        more := OutpostRuns(w, steps, StoreCalls(e));
        more := AnswerStored(w, more, id, body, m, header);
      }
    } else {
      Refused(codec, config, m, header, body);
      more := ReplyRefused(w, steps, id, status);
    }
  }

  /** The statuses that refuse a request do not acknowledge it. */
  lemma Refused(codec: Codec, config: Config, m: Mappings, header: Option<Bytes>, body: Bytes)
    ensures var r := Admit(codec, config, m, header, body);
            r.Err? ==> r.error == 400 || r.error == 401 || r.error == 403 || r.error == 500
  {
    hide Validate, Enrichment.Enriched;
  }

  lemma NotRefused202(codec: Codec, config: Config, m: Mappings, header: Option<Bytes>, body: Bytes)
    ensures Admit(codec, config, m, header, body) != Err(202)
  {
    Refused(codec, config, m, header, body);
  }

  lemma StoreMayAtOutpost(w: World, s: Protocol, id: Id, body: Bytes, m: Mappings, header: Option<Bytes>)
    requires (id, body, header) in s.posts && Admit(w.codec, w.config, m, header, body).Ok?
    requires w.occurs(Admit(w.codec, w.config, m, header, body).value)
    ensures var e := Admit(w.codec, w.config, m, header, body).value;
            forall c | c in StoreCalls(e) :: OutpostMay(w, s, c)
  {
    hide Admit, Brings, Allowed;
    StoreMay(w.occurs, s.receipts, OutpostVerdict, Admit(w.codec, w.config, m, header, body).value);
  }

  lemma AnswerStored(w: World, steps: seq<Step>, id: Id, body: Bytes, m: Mappings, header: Option<Bytes>)
    returns (more: seq<Step>)
    requires Behaviour(w, steps) && (id, body, header) in Reached(w, steps).posts
    requires Admit(w.codec, w.config, m, header, body).Ok?
    requires var e := Admit(w.codec, w.config, m, header, body).value;
             w.occurs(e) && Stored(w.hash, Reached(w, steps).outpost, e)
    ensures steps <= more && Behaviour(w, more)
    ensures Reached(w, more) == Reached(w, steps).(replies := Reached(w, steps).replies + {(id, 202)})
  {
    hide Behaviour, Reached, Admit, Stored;
    more := Extend(w, steps, Answer202(id, body, m, header));
  }

  lemma ReplyRefused(w: World, steps: seq<Step>, id: Id, status: nat) returns (more: seq<Step>)
    requires Behaviour(w, steps) && ObserverVerdict(status) != Acknowledge
    ensures steps <= more && Behaviour(w, more)
    ensures Reached(w, more) == Reached(w, steps).(replies := Reached(w, steps).replies + {(id, status)})
  {
    hide Behaviour, Reached;
    more := Extend(w, steps, Refuse(id, status));
  }

  /** `flush_batch` extends the behaviour, and a batch that counts as spooled is committed. */
  method FlushAtObserver(
    spool: DurableSpool, a: B.Assignment, s: B.Batching, now: Timestamp, ghost w: World, ghost steps: seq<Step>
  )
    returns (t: B.Batching, stored: bool, ghost more: seq<Step>)
    requires w.codec == a.codec && s.buffer != []
    requires Behaviour(w, steps) && IsSpool(w.hash, w.observerMax, spool, Reached(w, steps).observer)
    requires var body := a.codec.encode(B.BatchOf(a, now, s.buffer)); body.Some? ==> w.occurs(body.value)
    modifies spool
    ensures steps <= more && Behaviour(w, more)
    ensures IsSpool(w.hash, w.observerMax, spool, Reached(w, more).observer)
    ensures stored ==>
              var body := a.codec.encode(B.BatchOf(a, now, s.buffer));
              body.Some? && body.value in Reached(w, more).committed
  {
    hide Behaviour, Reached, Run, After, Sound, Room, Brings, Allowed, ObserverMay, B.BatchOf, B.Flushed, B.Lodged,
      B.NothingLeft;
    ghost var log, was := spool.log, Reached(w, steps).observer;
    t, stored := B.FlushBatch(spool, a, s, now);
    more := steps;
    if stored {
      ghost var body := a.codec.encode(B.BatchOf(a, now, s.buffer)).value;
      if spool.log == log {
        LoggedRun(spool, log, was);
        NothingRuns(w.hash, w.observerMax, was);
        assert spool.log[|log|..] == [];
      } else {
        LoggedRun(spool, log, was);
        assert spool.log[|log|..] == StoreCalls(body);
        StoreMayAtObserver(w, Reached(w, steps), B.BatchOf(a, now, s.buffer));
        more := ObserverRuns(w, steps, StoreCalls(body));
      }
      more := CommitStored(w, more, body);
    }
  }

  lemma StoreMayAtObserver(w: World, s: Protocol, b: Batch)
    requires w.codec.encode(b).Some? && w.occurs(w.codec.encode(b).value)
    ensures forall c | c in StoreCalls(w.codec.encode(b).value) :: ObserverMay(w, s, c)
  {
    hide Brings, Allowed;
    StoreMay(w.occurs, s.replies, ObserverVerdict, w.codec.encode(b).value);
  }

  lemma CommitStored(w: World, steps: seq<Step>, body: Bytes) returns (more: seq<Step>)
    requires Behaviour(w, steps) && w.occurs(body) && Stored(w.hash, Reached(w, steps).observer, body)
    ensures steps <= more && Behaviour(w, more)
    ensures Reached(w, more) == Reached(w, steps).(committed := Reached(w, steps).committed + {body})
  {
    hide Behaviour, Reached, Stored;
    more := Extend(w, steps, Commit(body));
  }
}
