/** One hop of the delivery path: what the Outpost does with a posted batch
    (`accept_batch`) and what a sender does with the reply
    (`deliver_observer_spool`, crates/observer/src/main.rs; `deliver_pending` and
    `deliver_http_batch`, crates/outpost/src/lib.rs). */
module Hops {
  import opened Primitives
  import opened Schema
  import opened Enrichment
  import opened Spool
  import opened SpoolOperations

  // ---------------------------------------------------------------- senders

  datatype Verdict = Acknowledge | Quarantine | Retry

  predicate Success(status: nat) { 200 <= status < 300 }
  predicate ClientError(status: nat) { 400 <= status < 500 }
  predicate ServerError(status: nat) { 500 <= status < 600 }

  const CONFLICT: nat := 409
  const TOO_MANY_REQUESTS: nat := 429

  function ObserverVerdict(status: nat): Verdict {
    if Success(status) || status == CONFLICT then Acknowledge
    else if ServerError(status) || status == TOO_MANY_REQUESTS then Retry
    else Quarantine
  }

  function OutpostVerdict(status: nat): Verdict {
    if Success(status) || status == CONFLICT then Acknowledge
    else if ClientError(status) && status != TOO_MANY_REQUESTS then Quarantine
    else Retry
  }

  /** Both senders keep the contract (acknowledge on 2xx and 409, retry on 429 and 5xx,
      retain on any other 4xx), and they part company exactly outside it: on
      informational, redirect and unassigned codes the Observer gives the batch up to
      quarantine where the Outpost retries. */
  lemma VerdictsCompared(status: nat)
    ensures 200 <= status <= 299 || status == 409 <==> ObserverVerdict(status) == Acknowledge
    ensures ObserverVerdict(status) == Acknowledge <==> OutpostVerdict(status) == Acknowledge
    ensures 500 <= status <= 599 || status == 429 <==> ObserverVerdict(status) == Retry
    ensures 400 <= status <= 499 && status != 409 && status != 429 <==> OutpostVerdict(status) == Quarantine
    ensures ObserverVerdict(status) != OutpostVerdict(status)
            <==> status < 200 || 300 <= status < 400 || 600 <= status
    ensures ObserverVerdict(status) != OutpostVerdict(status)
            ==> ObserverVerdict(status) == Quarantine && OutpostVerdict(status) == Retry
  {
  }

  /** JSON text of batches, as serde writes and reads it. */
  datatype Codec = Codec(encode: Batch -> Option<Bytes>, decode: Bytes -> Option<Batch>)

  datatype SendError = InvalidLocalBatch(id: Id) | Unanswered(id: Id)

  /** What becomes of an item in one delivery pass: `answer` is the verdict on each body,
      `Retry` when the request failed. */
  ghost predicate Settles(codec: Codec, answer: Bytes -> Verdict, was: Disk, now: Disk, id: Id)
    requires id in was.pending
  {
    var body := was.pending[id];
    && codec.decode(body).Some? && id !in now.pending
    && match answer(body)
       case Acknowledge => id !in now.quarantine
       case Quarantine => id in now.quarantine && now.quarantine[id] == body
       case Retry => false
  }

  ghost predicate Kept(was: Disk, now: Disk, id: Id)
    requires id in was.pending
  {
    id in now.pending && now.pending[id] == was.pending[id] && id !in now.quarantine
  }

  /** Whatever was quarantined still is, and what joined it was pending. */
  ghost predicate OnlyGrew(was: Disk, now: Disk) {
    && now.pending.Keys <= was.pending.Keys
    && (forall id | id in was.quarantine :: id in now.quarantine && now.quarantine[id] == was.quarantine[id])
    && (forall id | id in now.quarantine :: id in was.quarantine || id in was.pending)
  }

  /** The first `k` items are settled, the rest untouched. */
  ghost predicate Progress(
    codec: Codec, answer: Bytes -> Verdict, was: Disk, now: Disk, items: seq<PendingItem>, k: nat
  )
    requires forall i :: 0 <= i < |items| ==> items[i].id in was.pending
  {
    && OnlyGrew(was, now)
    && (forall i :: 0 <= i < k <= |items| ==> Settles(codec, answer, was, now, items[i].id))
    && (forall i :: k <= i < |items| ==> Kept(was, now, items[i].id))
  }

  /** The disk after the reply to one item. */
  ghost function Answered(verdict: Verdict, d: Disk, id: Id): Disk
    requires id in d.pending
  {
    match verdict
    case Acknowledge => d.(pending := d.pending - {id})
    case Quarantine => d.(pending := d.pending - {id}, quarantine := d.quarantine[id := d.pending[id]])
    case Retry => d
  }

  lemma ProgressStep(
    codec: Codec, answer: Bytes -> Verdict, was: Disk, now: Disk, items: seq<PendingItem>, k: nat
  )
    requires forall i :: 0 <= i < |items| ==> items[i].id in was.pending
    requires forall i, j :: 0 <= i < j < |items| ==> items[i].id != items[j].id
    requires k < |items| && Progress(codec, answer, was, now, items, k)
    requires codec.decode(was.pending[items[k].id]).Some? && answer(was.pending[items[k].id]) != Retry
    ensures var id := items[k].id;
            Progress(codec, answer, was, Answered(answer(was.pending[id]), now, id), items, k + 1)
  {
    var id := items[k].id;
    assert Kept(was, now, id);
    var next := Answered(answer(was.pending[id]), now, id);
    assert Settles(codec, answer, was, next, id);
    forall i | 0 <= i < k ensures Settles(codec, answer, was, next, items[i].id) {
      assert Settles(codec, answer, was, now, items[i].id);
    }
    forall i | k < i < |items| ensures Kept(was, next, items[i].id) {
      assert Kept(was, now, items[i].id);
    }
  }

  /** A call a delivery pass may make: it removes only what was acknowledged, isolates
      only what was rejected, and creates nothing. */
  ghost predicate Obeys(answer: Bytes -> Verdict, was: Disk, c: Call) {
    match c
    case Remove(id) => id in was.pending && answer(was.pending[id]) == Acknowledge
    case Isolate(id) => id in was.pending && answer(was.pending[id]) == Quarantine
    case SyncDirectory => true
    case _ => false
  }

  ghost predicate Obedient(answer: Bytes -> Verdict, was: Disk, before: seq<Call>, after: seq<Call>) {
    before <= after && forall i :: |before| <= i < |after| ==> Obeys(answer, was, after[i])
  }

  lemma ObeyTwice(answer: Bytes -> Verdict, was: Disk, before: seq<Call>, after: seq<Call>, c: Call)
    requires Obedient(answer, was, before, after) && Obeys(answer, was, c)
    ensures Obedient(answer, was, before, after + [c, SyncDirectory])
  {
    hide Obeys;
    assert Obeys(answer, was, SyncDirectory) by { SyncObeys(answer, was); }
  }

  lemma RemoveObeys(answer: Bytes -> Verdict, was: Disk, before: seq<Call>, after: seq<Call>, id: Id)
    requires Obedient(answer, was, before, after) && id in was.pending && answer(was.pending[id]) == Acknowledge
    ensures Obedient(answer, was, before, after + [Remove(id), SyncDirectory])
  {
    hide Obedient;
    ObeyTwice(answer, was, before, after, Remove(id));
  }

  lemma IsolateObeys(answer: Bytes -> Verdict, was: Disk, before: seq<Call>, after: seq<Call>, id: Id)
    requires Obedient(answer, was, before, after) && id in was.pending && answer(was.pending[id]) == Quarantine
    ensures Obedient(answer, was, before, after + [Isolate(id), SyncDirectory])
  {
    hide Obedient;
    ObeyTwice(answer, was, before, after, Isolate(id));
  }

  lemma SyncObeys(answer: Bytes -> Verdict, was: Disk)
    ensures Obeys(answer, was, SyncDirectory)
  {
  }

  /** A delivery pass, for either sender. Each item is settled as its reply says or left
      exactly as it was, and only the calls the replies allow are made; the pass succeeds
      only if all were settled, and otherwise stops at an item that is unreadable or must
      be retried, with all items of lower ids settled and all of higher ids untouched. */
  method DeliverSpool(spool: DurableSpool, codec: Codec, answer: Bytes -> Verdict) returns (r: Result<(), SendError>)
    requires spool.Valid()
    modifies spool
    ensures spool.Valid() && OnlyGrew(old(spool.disk), spool.disk)
    ensures Obedient(answer, old(spool.disk), old(spool.log), spool.log)
    ensures forall id | id in old(spool.disk).pending ::
              Kept(old(spool.disk), spool.disk, id) || Settles(codec, answer, old(spool.disk), spool.disk, id)
    ensures r.Ok? ==> spool.disk.pending == map[]
    ensures r.Err? ==>
              var was, id := old(spool.disk), r.error.id;
              && id in was.pending && Kept(was, spool.disk, id)
              && (r.error.InvalidLocalBatch? <==> codec.decode(was.pending[id]).None?)
              && (r.error.Unanswered? ==> answer(was.pending[id]) == Retry)
              && (forall other | other in was.pending && Less(other, id) :: Settles(codec, answer, was, spool.disk, other))
              && (forall other | other in was.pending && Less(id, other) :: Kept(was, spool.disk, other))
  {
    hide DurableSpool.Valid, Settles, OnlyGrew, Obedient, Obeys, Less;
    ghost var was := spool.disk;
    spool.Apart();
    NothingYet(answer, was, spool.log);
    var items := spool.Pending();
    for k := 0 to |items|
      invariant spool.Valid() && Progress(codec, answer, was, spool.disk, items, k)
      invariant Obedient(answer, was, old(spool.log), spool.log)
    {
      var id := items[k].id;
      assert Kept(was, spool.disk, id);
      var body := spool.disk.pending[id];
      if codec.decode(body).None? {
        AllAccounted(codec, answer, was, spool.disk, items, k);
        return Err(InvalidLocalBatch(id));
      }
      if answer(body) == Retry {
        AllAccounted(codec, answer, was, spool.disk, items, k);
        return Err(Unanswered(id));
      }
      ProgressStep(codec, answer, was, spool.disk, items, k);
      if answer(body) == Acknowledge {
        RemoveObeys(answer, was, old(spool.log), spool.log, id);
        spool.Acknowledge(id);
      } else {
        IsolateObeys(answer, was, old(spool.log), spool.log, id);
        var _ := spool.Quarantine(id);
      }
    }
    AllAccounted(codec, answer, was, spool.disk, items, |items|);
    r := Ok(());
  }

  lemma NothingYet(answer: Bytes -> Verdict, d: Disk, log: seq<Call>)
    ensures OnlyGrew(d, d) && Obedient(answer, d, log, log)
  {
  }

  lemma AllAccounted(
    codec: Codec, answer: Bytes -> Verdict, was: Disk, now: Disk, items: seq<PendingItem>, k: nat
  )
    requires forall i :: 0 <= i < |items| ==> items[i].id in was.pending
    requires forall id | id in was.pending :: PendingItem(id, |was.pending[id]|) in items
    requires k <= |items| && Progress(codec, answer, was, now, items, k) && Ascending(items)
    ensures forall id | id in was.pending :: Kept(was, now, id) || Settles(codec, answer, was, now, id)
    ensures k == |items| ==> now.pending == map[]
    ensures k < |items| ==>
              && (forall id | id in was.pending && Less(id, items[k].id) :: Settles(codec, answer, was, now, id))
              && (forall id | id in was.pending && Less(items[k].id, id) :: Kept(was, now, id))
  {
    hide Less;
    forall id | id in was.pending
      ensures Kept(was, now, id) || Settles(codec, answer, was, now, id)
      ensures k == |items| ==> id !in now.pending
      ensures k < |items| && Less(id, items[k].id) ==> Settles(codec, answer, was, now, id)
      ensures k < |items| && Less(items[k].id, id) ==> Kept(was, now, id)
    {
      var i :| 0 <= i < |items| && items[i] == PendingItem(id, |was.pending[id]|);
      if k < |items| { LessAsymmetric(id, items[k].id); }
      assert if i < k then Settles(codec, answer, was, now, items[i].id) else Kept(was, now, items[i].id);
    }
  }

  // ---------------------------------------------------------------- the Outpost as receiver

  datatype Config = Config(internalToken: Option<Bytes>, tenancy: Tenancy, clusterName: Bytes)

  /** What the Outpost reads from its environment while it handles one request. */
  datatype Mappings = Mappings(identities: map<Bytes, Identity>, pods: map<Bytes, Kubernetes>)

  /** The credential in an authorization header. */
  function Bearer(header: Option<Bytes>): Option<Bytes> {
    if header.Some? && Ascii("Bearer ") <= header.value then Some(header.value[7..]) else None
  }

  /** The credential is the one that is asked for exactly when the header spells it out. */
  lemma BearerMeans(header: Option<Bytes>, token: Bytes)
    ensures Bearer(header) == Some(token) <==> header == Some(Ascii("Bearer ") + token)
  {
    if header.Some? && Ascii("Bearer ") <= header.value {
      assert header.value == Ascii("Bearer ") + header.value[7..];
    }
    var whole := Ascii("Bearer ") + token;
    assert Ascii("Bearer ") <= whole && whole[7..] == token;
  }

  /** The body to be stored for a posted one, or the status that refuses it. */
  function Admit(codec: Codec, config: Config, m: Mappings, header: Option<Bytes>, body: Bytes): Result<Bytes, nat> {
    if config.internalToken.Some? && Bearer(header) != config.internalToken then Err(401)
    else
      match codec.decode(body)
      case None => Err(400)
      case Some(batch) =>
        if Validate(batch).Err? then Err(400)
        else if batch.tenancy != config.tenancy then Err(403)
        else
          match codec.encode(Enriched(m.identities, m.pods, config.clusterName, batch))
          case None => Err(500)
          case Some(encoded) => Ok(encoded)
  }

  /** `accept_batch`: 202 is answered only once the enriched batch is in the spool, and
      any other status leaves the spool as it was. */
  method AcceptBatch(
    spool: DurableSpool, codec: Codec, config: Config, m: Mappings, header: Option<Bytes>, body: Bytes
  )
    returns (status: nat, receipt: Option<Id>)
    requires spool.Valid()
    modifies spool
    ensures spool.Valid()
    ensures match Admit(codec, config, m, header, body)
            case Err(refusal) =>
              status == refusal && receipt.None? && spool.disk == old(spool.disk) && spool.log == old(spool.log)
            case Ok(encoded) =>
              var id := spool.hash(encoded);
              if id in old(spool.disk).pending || id in old(spool.disk).quarantine then
                status == 202 && receipt == Some(id) && spool.disk == old(spool.disk) && spool.log == old(spool.log)
              else if Room(old(spool.disk), spool.maxBytes, |encoded|) then
                && status == 202 && receipt == Some(id)
                && spool.disk == old(spool.disk).(pending := old(spool.disk).pending[id := encoded])
                && spool.log == old(spool.log) + StoreCalls(encoded)
              else status == 507 && receipt.None? && spool.disk == old(spool.disk) && spool.log == old(spool.log)
    // The same in the words of the interface.
    ensures var refused := config.internalToken.Some? && header != Some(Ascii("Bearer ") + config.internalToken.value);
            var batch := codec.decode(body);
            var unreadable := batch.None? || !WellFormed(batch.value);
            && (status == 401 <==> refused)
            && (status == 400 <==> !refused && unreadable)
            && (status == 403 <==> !refused && !unreadable && batch.value.tenancy != config.tenancy)
            && (status == 202 || spool.disk != old(spool.disk) || spool.log != old(spool.log)
                ==> !refused && !unreadable && batch.value.tenancy == config.tenancy)
            && (spool.disk != old(spool.disk) ==> status == 202)
  {
    hide DurableSpool.Valid, Validate, Room, WellFormed;
    if config.internalToken.Some? {
      BearerMeans(header, config.internalToken.value);
      if Bearer(header) != config.internalToken { return 401, None; }
    }
    var decoded := codec.decode(body);
    if decoded.None? { return 400, None; }
    var batch := decoded.value;
    ValidationMeans(batch);
    if Validate(batch).Err? { return 400, None; }
    if batch.tenancy.customerId != config.tenancy.customerId
      || batch.tenancy.tenantId != config.tenancy.tenantId
      || batch.tenancy.sourceId != config.tenancy.sourceId
      || batch.tenancy.regionalCellId != config.tenancy.regionalCellId
    {
      return 403, None;
    }
    batch := EnrichBatch(m.identities, m.pods, config.clusterName, batch);
    var encoded := codec.encode(batch);
    if encoded.None? { return 500, None; }
    var stored := spool.Enqueue(encoded.value);
    match stored {
      case Err(_) => return 507, None;
      case Ok(id) => return 202, Some(id);
    }
  }

  /** What passes admission is a valid batch of this Outpost's own tenancy, and what is
      stored for it is valid too, with the same identity. */
  lemma AdmittedValid(codec: Codec, config: Config, m: Mappings, header: Option<Bytes>, body: Bytes)
    requires Admit(codec, config, m, header, body).Ok?
    ensures codec.decode(body).Some?
    ensures var batch := codec.decode(body).value;
            var enriched := Enriched(m.identities, m.pods, config.clusterName, batch);
            && Validate(batch).Ok? && batch.tenancy == config.tenancy
            && (config.internalToken.Some? ==> header == Some(Ascii("Bearer ") + config.internalToken.value))
            && Validate(enriched).Ok? && enriched.tenancy == config.tenancy && enriched.batchId == batch.batchId
            && codec.encode(enriched) == Some(Admit(codec, config, m, header, body).value)
  {
    hide Validate, Enriched;
    EnrichmentSafe(m.identities, m.pods, config.clusterName, codec.decode(body).value);
    if config.internalToken.Some? { BearerMeans(header, config.internalToken.value); }
  }
}
