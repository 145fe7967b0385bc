/** The two-hop delivery protocol: Observer spool, Outpost spool, destination.

    A state machine over the file-system calls of both spools and the messages between
    the three parties. Between any two calls of one host anything may happen elsewhere,
    either host may crash at any point, and messages are never removed from the network,
    so they may be delayed, repeated, or lost by never being acted upon. The destination
    keeps the receiver contract of docs/HTTP_PUSH_CONTRACT.md: it acknowledges, with 2xx
    or 409, only keys it has durably accepted. */
module Delivery {
  import opened Primitives
  import opened Schema
  import opened Enrichment
  import opened Spool
  import opened Provenance
  import opened Hops

  /** A request to the Outpost: the item, its body, and the authorization header. */
  type Posted = (Id, Bytes, Option<Bytes>)

  /** The idempotency key of a batch. */
  datatype Key = Key(sourceId: Bytes, batchId: Bytes)

  datatype World = World(
    hash: Bytes -> Id,
    occurs: Bytes -> bool,
    codec: Codec,
    config: Config,
    observerMax: nat,
    outpostMax: nat
  )

  function KeyOf(w: World, body: Bytes): Option<Key> {
    match w.codec.decode(body)
    case None => None
    case Some(batch) => Some(Key(batch.tenancy.sourceId, batch.batchId))
  }

  /** What the two libraries are relied on for: no hash collision among the bodies of the
      run, and batch identities that survive being written and read back. */
  ghost predicate Trusted(w: World) {
    && CollisionFree(w.hash, w.occurs)
    && (forall b: Batch | w.codec.encode(b).Some? ::
          KeyOf(w, w.codec.encode(b).value) == Some(Key(b.tenancy.sourceId, b.batchId)))
  }

  datatype Protocol = Protocol(
    observer: Spool.State,
    outpost: Spool.State,
    flushed: set<Bytes>,                // bodies the Observer began to enqueue
    committed: set<Bytes>,              // bodies whose Observer enqueue returned Ok
    posts: set<Posted>,                 // requests to the Outpost
    stored: set<Bytes>,                 // bodies the Outpost began to enqueue
    replies: set<(Id, nat)>,            // statuses sent to the Observer
    forwards: set<(Id, Bytes)>,         // requests to the destination
    receipts: set<(Id, nat)>,           // statuses sent to the Outpost
    accepted: set<Bytes>                // bodies the destination has durably accepted
  )

  const INITIAL := Protocol(
    Spool.State(EMPTY_DISK, Idle), Spool.State(EMPTY_DISK, Idle), {}, {}, {}, {}, {}, {}, {}, {}
  )

  datatype Step =
    | ObserverCall(call: Call)
    | Commit(body: Bytes)
    | Post(id: Id, header: Option<Bytes>)
    | OutpostCall(call: Call)
    | Answer202(id: Id, body: Bytes, m: Mappings, header: Option<Bytes>)
    | Refuse(id: Id, status: nat)
    | Forward(id: Id)
    | Accept(id: Id, body: Bytes, status: nat)
    | Duplicate(id: Id, body: Bytes)
    | Reject(id: Id, status: nat)

  ghost predicate Replied(replies: set<(Id, nat)>, id: Id, decide: nat -> Verdict, verdict: Verdict) {
    exists status :: (id, status) in replies && decide(status) == verdict
  }

  ghost predicate Admitted(w: World, posts: set<Posted>, encoded: Bytes) {
    exists id, body, m, header :: (id, body, header) in posts && Admit(w.codec, w.config, m, header, body) == Ok(encoded)
  }

  /** A sender acts on an item only as a reply about it says. */
  ghost predicate Allowed(replies: set<(Id, nat)>, decide: nat -> Verdict, call: Call) {
    && (call.Remove? ==> Replied(replies, call.id, decide, Acknowledge))
    && (call.Isolate? ==> Replied(replies, call.id, decide, Quarantine))
  }

  predicate Stored(hash: Bytes -> Id, s: Spool.State, body: Bytes) {
    s.op.Idle? && (hash(body) in s.disk.pending || hash(body) in s.disk.quarantine)
  }

  ghost predicate Can(w: World, s: Protocol, step: Step) {
    match step
    case ObserverCall(call) =>
      && Enabled(w.hash, w.observerMax, s.observer, call) && Brings(w.occurs, call)
      && Allowed(s.replies, ObserverVerdict, call)
      && (call.Create? ==> exists b: Batch :: w.codec.encode(b) == Some(call.body))
    case Commit(body) => w.occurs(body) && Stored(w.hash, s.observer, body)
    case Post(id, _) =>
      s.observer.op.Idle? && id in s.observer.disk.pending && w.codec.decode(s.observer.disk.pending[id]).Some?
    case OutpostCall(call) =>
      && Enabled(w.hash, w.outpostMax, s.outpost, call) && Brings(w.occurs, call)
      && Allowed(s.receipts, OutpostVerdict, call)
      && (call.Create? ==> Admitted(w, s.posts, call.body))
    case Answer202(id, body, m, header) =>
      && (id, body, header) in s.posts
      && var encoded := Admit(w.codec, w.config, m, header, body);
         encoded.Ok? && w.occurs(encoded.value) && Stored(w.hash, s.outpost, encoded.value)
    case Refuse(id, status) => ObserverVerdict(status) != Acknowledge
    case Forward(id) =>
      s.outpost.op.Idle? && id in s.outpost.disk.pending && w.codec.decode(s.outpost.disk.pending[id]).Some?
    case Accept(id, body, status) => (id, body) in s.forwards && Success(status)
    case Duplicate(id, body) => (id, body) in s.forwards && Accepted(w, s, KeyOf(w, body))
    case Reject(id, status) => OutpostVerdict(status) != Acknowledge
  }

  function Next(w: World, s: Protocol, step: Step): Protocol {
    match step
    case ObserverCall(call) =>
      s.(observer := Apply(w.hash, s.observer, call), flushed := Created(s.flushed, call))
    case Commit(body) => s.(committed := s.committed + {body})
    case Post(id, header) =>
      if id in s.observer.disk.pending
      then s.(posts := s.posts + {(id, s.observer.disk.pending[id], header)}) else s
    case OutpostCall(call) =>
      s.(outpost := Apply(w.hash, s.outpost, call), stored := Created(s.stored, call))
    case Answer202(id, _, _, _) => s.(replies := s.replies + {(id, 202)})
    case Refuse(id, status) => s.(replies := s.replies + {(id, status)})
    case Forward(id) =>
      if id in s.outpost.disk.pending then s.(forwards := s.forwards + {(id, s.outpost.disk.pending[id])}) else s
    case Accept(id, body, status) =>
      if KeyOf(w, body).Some?
      then s.(accepted := s.accepted + {body}, receipts := s.receipts + {(id, status)})
      else s
    case Duplicate(id, _) => s.(receipts := s.receipts + {(id, CONFLICT)})
    case Reject(id, status) => s.(receipts := s.receipts + {(id, status)})
  }

  ghost predicate Behaviour(w: World, steps: seq<Step>)
    decreases |steps|, 0
  {
    steps != [] ==>
      && Behaviour(w, steps[..|steps| - 1])
      && Can(w, Reached(w, steps[..|steps| - 1]), steps[|steps| - 1])
  }

  function Reached(w: World, steps: seq<Step>): Protocol
    decreases |steps|, 1
  {
    if steps == [] then INITIAL else Next(w, Reached(w, steps[..|steps| - 1]), steps[|steps| - 1])
  }

  // ---------------------------------------------------------------- what is kept

  ghost predicate Accepted(w: World, s: Protocol, key: Option<Key>) {
    key.Some? && exists e :: e in s.accepted && KeyOf(w, e) == key
  }

  /** The key is safe beyond the Observer: durably stored at the Outpost, or accepted. */
  ghost predicate Secured(w: World, s: Protocol, key: Option<Key>) {
    || Accepted(w, s, key)
    || exists e :: e in s.stored && KeyOf(w, e) == key && Holds(w.hash, s.outpost, w.hash(e), e)
  }

  ghost predicate HostsSound(w: World, s: Protocol) {
    && Sound(w.hash, w.observerMax, s.observer) && Origin(w.hash, w.occurs, s.flushed, s.observer)
    && Sound(w.hash, w.outpostMax, s.outpost) && Origin(w.hash, w.occurs, s.stored, s.outpost)
  }

  /** Every message and every stored body has a history. */
  ghost predicate Traced(w: World, s: Protocol) {
    && s.committed <= s.flushed
    && (forall b | b in s.flushed :: KeyOf(w, b).Some?)
    && (forall p | p in s.posts :: p.1 in s.flushed && w.hash(p.1) == p.0)
    && (forall e | e in s.stored :: Admitted(w, s.posts, e))
    && (forall f | f in s.forwards :: f.1 in s.stored && w.hash(f.1) == f.0)
    && s.accepted <= s.stored
  }

  /** Acknowledgements are honest. */
  ghost predicate Honest(w: World, s: Protocol) {
    && (forall r | r in s.replies && ObserverVerdict(r.1) == Acknowledge ::
          exists b :: b in s.flushed && w.hash(b) == r.0 && Secured(w, s, KeyOf(w, b)))
    && (forall r | r in s.receipts && OutpostVerdict(r.1) == Acknowledge ::
          exists e :: e in s.stored && w.hash(e) == r.0 && Accepted(w, s, KeyOf(w, e)))
  }

  ghost predicate Safe(w: World, s: Protocol) {
    forall b | b in s.committed :: Holds(w.hash, s.observer, w.hash(b), b) || Secured(w, s, KeyOf(w, b))
  }

  ghost predicate Inv(w: World, s: Protocol) {
    HostsSound(w, s) && Traced(w, s) && Honest(w, s) && Safe(w, s)
  }

  // ---------------------------------------------------------------- steps keep it

  lemma HostsStep(w: World, s: Protocol, step: Step)
    requires Trusted(w) && HostsSound(w, s) && Can(w, s, step)
    ensures HostsSound(w, Next(w, s, step))
  {
    hide Sound, Origin, Apply, Enabled, Allowed, Admit;
    match step
    case ObserverCall(call) =>
      StepSound(w.hash, w.observerMax, s.observer, call);
      OriginStep(w.hash, w.occurs, w.observerMax, s.flushed, s.observer, call);
    case OutpostCall(call) =>
      StepSound(w.hash, w.outpostMax, s.outpost, call);
      OriginStep(w.hash, w.occurs, w.outpostMax, s.stored, s.outpost, call);
    case _ =>
  }

  /** What enqueue found or left under a body's id is that very body. */
  lemma StoredIsHeld(hash: Bytes -> Id, occurs: Bytes -> bool, max: nat, created: set<Bytes>, s: Spool.State, body: Bytes)
    requires CollisionFree(hash, occurs) && Sound(hash, max, s) && Origin(hash, occurs, created, s)
    requires occurs(body) && Stored(hash, s, body)
    ensures body in created && Holds(hash, s, hash(body), body)
  {
    hide Total, Fits;
    var id := hash(body);
    if id in s.disk.pending {
      assert s.disk.pending[id] in created;
    } else {
      assert s.disk.quarantine[id] in created;
    }
  }

  lemma PendingFrom(hash: Bytes -> Id, occurs: Bytes -> bool, max: nat, created: set<Bytes>, s: Spool.State, id: Id)
    requires Sound(hash, max, s) && Origin(hash, occurs, created, s) && id in s.disk.pending
    ensures s.disk.pending[id] in created && hash(s.disk.pending[id]) == id
  {
    hide Total, Fits;
  }

  lemma AdmittedMore(w: World, posts: set<Posted>, more: set<Posted>, encoded: Bytes)
    requires Admitted(w, posts, encoded) && posts <= more
    ensures Admitted(w, more, encoded)
  {
    hide Admit;
    var id, body, m, header :| (id, body, header) in posts && Admit(w.codec, w.config, m, header, body) == Ok(encoded);
    assert (id, body, header) in more;
  }

  /** What is stored for a posted body has that body's key. */
  lemma AdmittedKey(w: World, m: Mappings, header: Option<Bytes>, body: Bytes)
    requires Trusted(w) && Admit(w.codec, w.config, m, header, body).Ok?
    ensures KeyOf(w, Admit(w.codec, w.config, m, header, body).value) == KeyOf(w, body)
    ensures KeyOf(w, body).Some? && KeyOf(w, body).value.sourceId == w.config.tenancy.sourceId
  {
    hide Validate, Enriched, Admit;
    AdmittedValid(w.codec, w.config, m, header, body);
  }

  lemma OccursInHost(hash: Bytes -> Id, occurs: Bytes -> bool, created: set<Bytes>, s: Spool.State, a: Bytes, b: Bytes)
    requires CollisionFree(hash, occurs) && Origin(hash, occurs, created, s)
    requires a in created && b in created && hash(a) == hash(b)
    ensures a == b
  {
  }

  lemma TracedGrows(w: World, s: Protocol, t: Protocol)
    requires Traced(w, s)
    requires s.posts <= t.posts && s.stored <= t.stored && s.accepted == t.accepted
    requires t.committed <= t.flushed
    requires forall b | b in t.flushed && b !in s.flushed :: KeyOf(w, b).Some?
    requires s.flushed <= t.flushed
    requires forall p | p in t.posts && p !in s.posts :: p.1 in t.flushed && w.hash(p.1) == p.0
    requires forall e | e in t.stored && e !in s.stored :: Admitted(w, t.posts, e)
    requires forall f | f in t.forwards && f !in s.forwards :: f.1 in t.stored && w.hash(f.1) == f.0
    ensures Traced(w, t)
  {
    hide KeyOf, Admitted;
    forall e | e in t.stored ensures Admitted(w, t.posts, e) {
      if e in s.stored { AdmittedMore(w, s.posts, t.posts, e); }
    }
  }

  lemma TracedStep(w: World, s: Protocol, step: Step)
    requires Trusted(w) && HostsSound(w, s) && Traced(w, s) && Can(w, s, step)
    ensures Traced(w, Next(w, s, step))
  {
    hide Sound, Origin, Apply, Enabled, Allowed, Admit, KeyOf, Admitted, CollisionFree, Stored, Traced;
    TracedParts(w, s);
    var t := Next(w, s, step);
    match step
    case Commit(body) =>
      StoredIsHeld(w.hash, w.occurs, w.observerMax, s.flushed, s.observer, body);
      TracedGrows(w, s, t);
    case Post(id, _) =>
      PendingFrom(w.hash, w.occurs, w.observerMax, s.flushed, s.observer, id);
      TracedGrows(w, s, t);
    case Forward(id) =>
      PendingFrom(w.hash, w.occurs, w.outpostMax, s.stored, s.outpost, id);
      TracedGrows(w, s, t);
    case Accept(id, body, status) => AcceptTraced(w, s, id, body, status);
    case _ => TracedGrows(w, s, t);
  }

  lemma TracedParts(w: World, s: Protocol)
    requires Traced(w, s)
    ensures s.committed <= s.flushed
  {
  }

  lemma AcceptTraced(w: World, s: Protocol, id: Id, body: Bytes, status: nat)
    requires Traced(w, s) && (id, body) in s.forwards
    ensures Traced(w, Next(w, s, Accept(id, body, status)))
  {
    hide KeyOf, Admitted;
    var t := Next(w, s, Accept(id, body, status));
    assert (id, body).1 in s.stored;
  }

  /** Once a key is safe beyond the Observer it stays so. */
  lemma SecuredStable(w: World, s: Protocol, step: Step, key: Option<Key>)
    requires Trusted(w) && HostsSound(w, s) && Honest(w, s) && Can(w, s, step)
    requires Secured(w, s, key)
    ensures Secured(w, Next(w, s, step), key)
  {
    hide Sound, Origin, Apply, Enabled, Admit, KeyOf, Admitted, CollisionFree, Stored, Holds, OutpostVerdict, ObserverVerdict;
    var t := Next(w, s, step);
    if Accepted(w, s, key) {
      AcceptedStays(w, s, step, key);
    } else {
      var e :| e in s.stored && KeyOf(w, e) == key && Holds(w.hash, s.outpost, w.hash(e), e);
      assert e in t.stored;
      if step.OutpostCall? {
        if step.call == Remove(w.hash(e)) {
          ReceiptSettles(w, s, e);
        } else {
          HeldStable(w.hash, w.outpostMax, s.outpost, step.call, w.hash(e), e);
        }
      }
    }
  }

  lemma AcceptedStays(w: World, s: Protocol, step: Step, key: Option<Key>)
    requires Accepted(w, s, key)
    ensures Accepted(w, Next(w, s, step), key)
  {
    hide KeyOf, Apply;
    var e :| e in s.accepted && KeyOf(w, e) == key;
    assert e in Next(w, s, step).accepted;
  }

  lemma ReceiptSettles(w: World, s: Protocol, e: Bytes)
    requires Trusted(w) && HostsSound(w, s) && Honest(w, s)
    requires e in s.stored && Replied(s.receipts, w.hash(e), OutpostVerdict, Acknowledge)
    ensures Accepted(w, s, KeyOf(w, e))
  {
    hide Sound, Origin, KeyOf, CollisionFree, OutpostVerdict, ObserverVerdict, Secured;
    var status :| (w.hash(e), status) in s.receipts && OutpostVerdict(status) == Acknowledge;
    var r := (w.hash(e), status);
    var f :| f in s.stored && w.hash(f) == r.0 && Accepted(w, s, KeyOf(w, f));
    OccursInHost(w.hash, w.occurs, s.stored, s.outpost, e, f);
  }

  lemma ReplySettles(w: World, s: Protocol, b: Bytes)
    requires Trusted(w) && HostsSound(w, s) && Honest(w, s)
    requires b in s.flushed && Replied(s.replies, w.hash(b), ObserverVerdict, Acknowledge)
    ensures Secured(w, s, KeyOf(w, b))
  {
    hide Sound, Origin, KeyOf, CollisionFree, OutpostVerdict, ObserverVerdict, Secured;
    var status :| (w.hash(b), status) in s.replies && ObserverVerdict(status) == Acknowledge;
    var r := (w.hash(b), status);
    var f :| f in s.flushed && w.hash(f) == r.0 && Secured(w, s, KeyOf(w, f));
    OccursInHost(w.hash, w.occurs, s.flushed, s.observer, b, f);
  }

  /** A 202 is sent only for a key that is durably stored at the Outpost. */
  lemma AnswerHonest(w: World, s: Protocol, id: Id, body: Bytes, m: Mappings, header: Option<Bytes>)
    requires Trusted(w) && HostsSound(w, s) && Traced(w, s) && Can(w, s, Answer202(id, body, m, header))
    ensures body in s.flushed && w.hash(body) == id && Secured(w, s, KeyOf(w, body))
  {
    hide Sound, Origin, Admit, KeyOf, CollisionFree, Holds, Stored;
    var e := Admit(w.codec, w.config, m, header, body).value;
    var p: Posted := (id, body, header);
    assert p.1 in s.flushed && w.hash(p.1) == p.0;
    StoredIsHeld(w.hash, w.occurs, w.outpostMax, s.stored, s.outpost, e);
    AdmittedKey(w, m, header, body);
  }

  lemma RepliesHonest(w: World, s: Protocol, step: Step, r: (Id, nat))
    requires Trusted(w) && HostsSound(w, s) && Traced(w, s) && Honest(w, s) && Can(w, s, step)
    requires r in Next(w, s, step).replies && ObserverVerdict(r.1) == Acknowledge
    ensures exists b :: b in Next(w, s, step).flushed && w.hash(b) == r.0 && Secured(w, Next(w, s, step), KeyOf(w, b))
  {
    hide HostsSound, Apply, Enabled, KeyOf, Secured, Traced, Trusted, Can;
    var t := Next(w, s, step);
    var b;
    if r in s.replies {
      b :| b in s.flushed && w.hash(b) == r.0 && Secured(w, s, KeyOf(w, b));
    } else {
      NewReply(w, s, step, r);
      AnswerHonest(w, s, step.id, step.body, step.m, step.header);
      b := step.body;
    }
    SecuredStable(w, s, step, KeyOf(w, b));
    assert b in t.flushed;
  }

  lemma NewReply(w: World, s: Protocol, step: Step, r: (Id, nat))
    requires Can(w, s, step) && r in Next(w, s, step).replies && r !in s.replies
    requires ObserverVerdict(r.1) == Acknowledge
    ensures step.Answer202? && r == (step.id, 202)
  {
    hide Apply, Enabled, Admit, Admitted;
  }

  lemma ReceiptsHonest(w: World, s: Protocol, step: Step, r: (Id, nat))
    requires Traced(w, s) && Honest(w, s) && Can(w, s, step)
    requires r in Next(w, s, step).receipts && OutpostVerdict(r.1) == Acknowledge
    ensures var t := Next(w, s, step);
            exists e :: e in t.stored && w.hash(e) == r.0 && Accepted(w, t, KeyOf(w, e))
  {
    hide Apply, Enabled, KeyOf, Secured, Admit, Admitted, Allowed;
    var t := Next(w, s, step);
    var e;
    if r in s.receipts {
      e :| e in s.stored && w.hash(e) == r.0 && Accepted(w, s, KeyOf(w, e));
      AcceptedStays(w, s, step, KeyOf(w, e));
    } else {
      e := step.body;
      assert (step.id, step.body) in s.forwards;
      assert (step.id, step.body).1 in s.stored;
    }
    assert e in t.stored;
  }

  lemma HonestStep(w: World, s: Protocol, step: Step)
    requires Trusted(w) && HostsSound(w, s) && Traced(w, s) && Honest(w, s) && Can(w, s, step)
    ensures Honest(w, Next(w, s, step))
  {
    var t := Next(w, s, step);
    forall r | r in t.replies && ObserverVerdict(r.1) == Acknowledge
      ensures exists b :: b in t.flushed && w.hash(b) == r.0 && Secured(w, t, KeyOf(w, b))
    {
      RepliesHonest(w, s, step, r);
    }
    forall r | r in t.receipts && OutpostVerdict(r.1) == Acknowledge
      ensures exists e :: e in t.stored && w.hash(e) == r.0 && Accepted(w, t, KeyOf(w, e))
    {
      ReceiptsHonest(w, s, step, r);
    }
  }

  lemma SafeStep(w: World, s: Protocol, step: Step, b: Bytes)
    requires Trusted(w) && Inv(w, s) && Can(w, s, step) && b in Next(w, s, step).committed
    ensures var t := Next(w, s, step); Holds(w.hash, t.observer, w.hash(b), b) || Secured(w, t, KeyOf(w, b))
  {
    hide Sound, Origin, Apply, Enabled, Admit, Admitted, KeyOf, CollisionFree, Stored, Holds, Secured, Honest, OutpostVerdict, ObserverVerdict;
    if b !in s.committed {
      StoredIsHeld(w.hash, w.occurs, w.observerMax, s.flushed, s.observer, b);
    } else if Secured(w, s, KeyOf(w, b)) {
      SecuredStable(w, s, step, KeyOf(w, b));
    } else if step.ObserverCall? {
      if step.call == Remove(w.hash(b)) {
        ReplySettles(w, s, b);
      } else {
        HeldStable(w.hash, w.observerMax, s.observer, step.call, w.hash(b), b);
      }
    }
  }

  lemma InvStep(w: World, s: Protocol, step: Step)
    requires Trusted(w) && Inv(w, s) && Can(w, s, step)
    ensures Inv(w, Next(w, s, step))
  {
    hide HostsSound, Traced, Honest, Next, Can, Trusted;
    HostsStep(w, s, step);
    TracedStep(w, s, step);
    HonestStep(w, s, step);
    forall b | b in Next(w, s, step).committed
      ensures Holds(w.hash, Next(w, s, step).observer, w.hash(b), b) || Secured(w, Next(w, s, step), KeyOf(w, b))
    {
      SafeStep(w, s, step, b);
    }
  }

  lemma InitialInv(w: World)
    ensures Inv(w, INITIAL)
  {
    TotalEmpty();
  }

  lemma {:induction false} RunInv(w: World, steps: seq<Step>)
    requires Trusted(w) && Behaviour(w, steps)
    ensures Inv(w, Reached(w, steps))
    decreases |steps|
  {
    hide Trusted, Inv, Can, Next;
    if steps == [] {
      InitialInv(w);
    } else {
      RunInv(w, steps[..|steps| - 1]);
      InvStep(w, Reached(w, steps[..|steps| - 1]), steps[|steps| - 1]);
    }
  }

  // ---------------------------------------------------------------- main results

  ghost predicate InFiles(w: World, files: Files, key: Key) {
    exists id :: id in files && KeyOf(w, files[id]) == Some(key)
  }

  /** The batch is somewhere on the path. */
  ghost predicate Somewhere(w: World, s: Protocol, key: Key) {
    || InFiles(w, s.observer.disk.pending, key) || InFiles(w, s.observer.disk.quarantine, key)
    || InFiles(w, s.outpost.disk.pending, key) || InFiles(w, s.outpost.disk.quarantine, key)
    || Accepted(w, s, Some(key))
  }

  lemma HeldInFiles(w: World, s: Spool.State, id: Id, body: Bytes, key: Key)
    requires Holds(w.hash, s, id, body) && KeyOf(w, body) == Some(key)
    ensures InFiles(w, s.disk.pending, key) || InFiles(w, s.disk.quarantine, key)
  {
    hide KeyOf;
  }

  /** No batch is lost: in every run, with crashes of either host between any two
      file-system calls, lost, late and repeated messages, retries and rejections, each
      batch whose Observer enqueue returned Ok is pending or quarantined at the Observer,
      pending or quarantined at the Outpost, or accepted by the destination. */
  lemma NoBatchLost(w: World, steps: seq<Step>, body: Bytes)
    requires Trusted(w) && Behaviour(w, steps) && body in Reached(w, steps).committed
    ensures KeyOf(w, body).Some? && Somewhere(w, Reached(w, steps), KeyOf(w, body).value)
  {
    hide Trusted, Behaviour, Reached, HostsSound, Honest, KeyOf, Holds, InFiles;
    RunInv(w, steps);
    var s := Reached(w, steps);
    var key := KeyOf(w, body).value;
    if Holds(w.hash, s.observer, w.hash(body), body) {
      HeldInFiles(w, s.observer, w.hash(body), body, key);
    } else if !Accepted(w, s, Some(key)) {
      var e :| e in s.stored && KeyOf(w, e) == Some(key) && Holds(w.hash, s.outpost, w.hash(e), e);
      HeldInFiles(w, s.outpost, w.hash(e), e, key);
    }
  }

  /** Nothing is invented: whatever the destination accepted, or the Outpost stores, is a
      well-formed batch of the Outpost's own assignment that the Observer flushed and that
      was posted with the credential the Outpost asks for. */
  lemma NothingInvented(w: World, steps: seq<Step>, key: Key)
    requires Trusted(w) && Behaviour(w, steps)
    requires var s := Reached(w, steps);
             Accepted(w, s, Some(key)) || InFiles(w, s.outpost.disk.pending, key) || InFiles(w, s.outpost.disk.quarantine, key)
    ensures exists p: Posted :: p in Reached(w, steps).posts && p.1 in Reached(w, steps).flushed && Genuine(w, p, key)
  {
    hide Trusted, Behaviour, Reached, Honest, Safe, KeyOf, Admitted, Sound;
    RunInv(w, steps);
    var s := Reached(w, steps);
    var e;
    if Accepted(w, s, Some(key)) {
      e :| e in s.accepted && KeyOf(w, e) == Some(key);
    } else if InFiles(w, s.outpost.disk.pending, key) {
      var id :| id in s.outpost.disk.pending && KeyOf(w, s.outpost.disk.pending[id]) == Some(key);
      e := s.outpost.disk.pending[id];
    } else {
      var id :| id in s.outpost.disk.quarantine && KeyOf(w, s.outpost.disk.quarantine[id]) == Some(key);
      e := s.outpost.disk.quarantine[id];
    }
    var p := GenuineSource(w, s.posts, e, key);
    assert p.1 in s.flushed;
  }

  /** The request carries the credential, where the Outpost asks for one. */
  predicate Credentialed(config: Config, header: Option<Bytes>) {
    config.internalToken.Some? ==> header == Some(Ascii("Bearer ") + config.internalToken.value)
  }

  /** A posted batch of the assignment, well formed and with the right credential. */
  ghost predicate Genuine(w: World, p: Posted, key: Key) {
    && w.codec.decode(p.1).Some? && Credentialed(w.config, p.2)
    && var batch := w.codec.decode(p.1).value;
       && WellFormed(batch) && batch.tenancy == w.config.tenancy
       && key == Key(batch.tenancy.sourceId, batch.batchId)
  }

  lemma GenuineSource(w: World, posts: set<Posted>, e: Bytes, key: Key) returns (p: Posted)
    requires Trusted(w) && Admitted(w, posts, e) && KeyOf(w, e) == Some(key)
    ensures p in posts && Genuine(w, p, key)
  {
    hide Admit, Validate, Enriched, WellFormed;
    var id, posted, m, header :| (id, posted, header) in posts && Admit(w.codec, w.config, m, header, posted) == Ok(e);
    AdmittedKey(w, m, header, posted);
    AdmittedValid(w.codec, w.config, m, header, posted);
    ValidationMeans(w.codec.decode(posted).value);
    p := (id, posted, header);
  }

  // ---------------------------------------------------------------- the very batch

  ghost predicate KeysDistinct(w: World, s: Protocol) {
    forall a, b | a in s.flushed && b in s.flushed && KeyOf(w, a) == KeyOf(w, b) :: a == b
  }

  /** What the Outpost made of this very body, under some mappings. */
  ghost predicate EnrichmentOf(w: World, body: Bytes, e: Bytes) {
    exists m, header :: Admit(w.codec, w.config, m, header, body) == Ok(e)
  }

  ghost predicate InStore(files: Files, body: Bytes) {
    exists id :: id in files && files[id] == body
  }

  /** This very body, or an enrichment of it further on. */
  ghost predicate Whereabouts(w: World, s: Protocol, body: Bytes) {
    || InStore(s.observer.disk.pending, body) || InStore(s.observer.disk.quarantine, body)
    || exists e :: EnrichmentOf(w, body, e)
         && (InStore(s.outpost.disk.pending, e) || InStore(s.outpost.disk.quarantine, e) || e in s.accepted)
  }

  lemma StoredFrom(w: World, s: Protocol, e: Bytes, body: Bytes)
    requires Trusted(w) && Traced(w, s) && KeysDistinct(w, s) && e in s.stored
    requires body in s.flushed && KeyOf(w, e) == KeyOf(w, body)
    ensures EnrichmentOf(w, body, e)
  {
    hide Admit, KeyOf, Trusted;
    var id, posted, m, header :| (id, posted, header) in s.posts && Admit(w.codec, w.config, m, header, posted) == Ok(e);
    AdmittedKey(w, m, header, posted);
    assert (id, posted, header).1 in s.flushed;
  }

  lemma HeldInStore(hash: Bytes -> Id, s: Spool.State, id: Id, body: Bytes)
    requires Holds(hash, s, id, body)
    ensures InStore(s.disk.pending, body) || InStore(s.disk.quarantine, body)
  {
  }

  /** No batch is replaced by another: if no two flushed bodies share a key, then each
      committed body is itself at the Observer, or what the Outpost made of that very body
      is at the Outpost or accepted. */
  lemma VeryBatchKept(w: World, steps: seq<Step>, body: Bytes)
    requires Trusted(w) && Behaviour(w, steps) && body in Reached(w, steps).committed
    requires KeysDistinct(w, Reached(w, steps))
    ensures Whereabouts(w, Reached(w, steps), body)
  {
    hide Trusted, Behaviour, Reached, HostsSound, Honest, KeyOf, Holds, InStore, EnrichmentOf, KeysDistinct, Admitted;
    RunInv(w, steps);
    var s := Reached(w, steps);
    if Holds(w.hash, s.observer, w.hash(body), body) {
      HeldInStore(w.hash, s.observer, w.hash(body), body);
    } else if Accepted(w, s, KeyOf(w, body)) {
      var e :| e in s.accepted && KeyOf(w, e) == KeyOf(w, body);
      StoredFrom(w, s, e, body);
    } else {
      var e :| e in s.stored && KeyOf(w, e) == KeyOf(w, body) && Holds(w.hash, s.outpost, w.hash(e), e);
      StoredFrom(w, s, e, body);
      HeldInStore(w.hash, s.outpost, w.hash(e), e);
    }
  }

  /** ... and so are its events: where the text of an enriched batch reads back as that
      batch, it has the events of the original, each with its payload. */
  lemma EventsKept(w: World, body: Bytes, e: Bytes)
    requires EnrichmentOf(w, body, e)
    requires forall b: Batch | w.codec.encode(b) == Some(e) :: w.codec.decode(e) == Some(b)
    ensures w.codec.decode(body).Some? && w.codec.decode(e).Some?
    ensures var a, b := w.codec.decode(body).value, w.codec.decode(e).value;
            && b.batchId == a.batchId && b.tenancy == a.tenancy && |b.events| == |a.events|
            && forall i :: 0 <= i < |a.events| ==> b.events[i].payload == a.events[i].payload
  {
    hide Validate, Admit;
    var m, header :| Admit(w.codec, w.config, m, header, body) == Ok(e);
    AdmittedValid(w.codec, w.config, m, header, body);
    EnrichmentSafe(m.identities, m.pods, w.config.clusterName, w.codec.decode(body).value);
  }
}
