/** What the Outpost adds to a batch before it stores it
    (`enrich_batch`, `enrich_external_identities`; crates/outpost/src/lib.rs). */
module Enrichment {
  import opened Primitives
  import opened Schema

  /** The hashed principal an event carries, if it carries one. */
  function HashedPrincipal(e: Event): Option<Bytes> {
    match e.payload
    case MongodbActivity(activity) => if activity.principalHashed then activity.principal else None
    case MongodbAuth(auth) => if auth.principalHashed then auth.principal else None
    case _ => None
  }

  function Identify(identities: map<Bytes, Identity>, e: Event): Event {
    var principal := HashedPrincipal(e);
    e.(identity := if principal.Some? && principal.value in identities then Some(identities[principal.value]) else None)
  }

  function Locate(pods: map<Bytes, Kubernetes>, cluster: Bytes, e: Event): Event {
    var k := if e.kubernetes.Some? then e.kubernetes.value else Kubernetes(None, None, None, []);
    var k := k.(clusterName := OrElse(k.clusterName, Some(cluster)));
    if k.podUid.Some? && k.podUid.value in pods then
      var known := pods[k.podUid.value];
      e.(kubernetes := Some(known.(podUid := k.podUid, containerName := OrElse(k.containerName, known.containerName))))
    else e.(kubernetes := Some(k))
  }

  function Enriched(
    identities: map<Bytes, Identity>, pods: map<Bytes, Kubernetes>, cluster: Bytes, b: Batch
  ): (r: Batch)
    ensures |r.events| == |b.events|
    ensures forall i :: 0 <= i < |b.events| ==> r.events[i] == Locate(pods, cluster, Identify(identities, b.events[i]))
  {
    b.(events := seq(|b.events|, i requires 0 <= i < |b.events| => Locate(pods, cluster, Identify(identities, b.events[i]))))
  }

  method EnrichExternalIdentities(identities: map<Bytes, Identity>, events: seq<Event>) returns (r: seq<Event>)
    ensures |r| == |events|
    ensures forall i :: 0 <= i < |events| ==> r[i] == Identify(identities, events[i])
  {
    r := events;
    for i := 0 to |events|
      invariant |r| == |events|
      invariant forall j :: 0 <= j < i ==> r[j] == Identify(identities, events[j])
      invariant forall j :: i <= j < |events| ==> r[j] == events[j]
    {
      var principal: Option<Bytes> := None;
      match r[i].payload {
        case MongodbActivity(activity) => if activity.principalHashed { principal := activity.principal; }
        case MongodbAuth(auth) => if auth.principalHashed { principal := auth.principal; }
        case _ =>
      }
      var identity: Option<Identity> := None;
      if principal.Some? && principal.value in identities { identity := Some(identities[principal.value]); }
      r := r[i := r[i].(identity := identity)];
    }
  }

  method EnrichBatch(identities: map<Bytes, Identity>, pods: map<Bytes, Kubernetes>, cluster: Bytes, b: Batch)
    returns (r: Batch)
    ensures r == Enriched(identities, pods, cluster, b)
  {
    var events := EnrichExternalIdentities(identities, b.events);
    ghost var identified := events;
    for i := 0 to |events|
      invariant |events| == |b.events|
      invariant forall j :: 0 <= j < i ==> events[j] == Locate(pods, cluster, identified[j])
      invariant forall j :: i <= j < |events| ==> events[j] == identified[j]
    {
      var existing := if events[i].kubernetes.Some? then events[i].kubernetes.value else Kubernetes(None, None, None, []);
      if existing.clusterName.None? { existing := existing.(clusterName := Some(cluster)); }
      if existing.podUid.Some? && existing.podUid.value in pods {
        var podUid, containerName := existing.podUid, existing.containerName;
        existing := pods[podUid.value].(podUid := podUid);
        if containerName.Some? { existing := existing.(containerName := containerName); }
      }
      events := events[i := events[i].(kubernetes := Some(existing))];
    }
    r := b.(events := events);
    assert r.events == Enriched(identities, pods, cluster, b).events;
  }

  /** The identity the mapping gives the hashed principal of an activity or an
      authentication, and none for a clear principal, for no principal, or for any other
      event. */
  ghost predicate IdentityFrom(identities: map<Bytes, Identity>, payload: Payload, identity: Option<Identity>) {
    match payload
    case MongodbActivity(a) =>
      if a.principalHashed && a.principal.Some? && a.principal.value in identities
      then identity == Some(identities[a.principal.value]) else identity.None?
    case MongodbAuth(a) =>
      if a.principalHashed && a.principal.Some? && a.principal.value in identities
      then identity == Some(identities[a.principal.value]) else identity.None?
    case _ => identity.None?
  }

  /** The pod data of an event afterwards: its own pod uid; of a known pod everything that is
      known, but for a container name of its own; otherwise what it had, with the cluster's
      name where it had none. */
  ghost predicate PodFrom(
    pods: map<Bytes, Kubernetes>, cluster: Bytes, before: Option<Kubernetes>, after: Option<Kubernetes>
  ) {
    && after.Some?
    && var uid := if before.Some? then before.value.podUid else None;
       var container := if before.Some? then before.value.containerName else None;
       && after.value.podUid == uid
       && if uid.Some? && uid.value in pods then
            && after.value.clusterName == pods[uid.value].clusterName && after.value.details == pods[uid.value].details
            && after.value.containerName == (if container.Some? then container else pods[uid.value].containerName)
          else
            && after.value.clusterName ==
               (if before.Some? && before.value.clusterName.Some? then before.value.clusterName else Some(cluster))
            && after.value.containerName == container
            && after.value.details == (if before.Some? then before.value.details else [])
  }

  /** Enrichment keeps a valid batch valid and its identity untouched. On each event it
      leaves the identity the trusted mapping gives, whatever identity the event came
      with, the pod data from the cache, and everything else as it was. */
  lemma EnrichmentSafe(identities: map<Bytes, Identity>, pods: map<Bytes, Kubernetes>, cluster: Bytes, b: Batch)
    ensures var r := Enriched(identities, pods, cluster, b);
            && Validate(r) == Validate(b)
            && r.batchId == b.batchId && r.tenancy == b.tenancy && r.createdAt == b.createdAt
            && (forall i :: 0 <= i < |b.events| ==>
                  && IdentityFrom(identities, b.events[i].payload, r.events[i].identity)
                  && PodFrom(pods, cluster, b.events[i].kubernetes, r.events[i].kubernetes)
                  && r.events[i] == b.events[i].(identity := r.events[i].identity, kubernetes := r.events[i].kubernetes))
  {
    hide Blank;
    var r := Enriched(identities, pods, cluster, b);
    forall i | 0 <= i < |b.events|
      ensures r.events[i].schemaVersion == b.events[i].schemaVersion
      ensures NamedEvent(r.events[i]) == NamedEvent(b.events[i])
      ensures r.events[i].tenancy == b.events[i].tenancy
      ensures CaptureMatches(r.events[i]) == CaptureMatches(b.events[i])
    {
    }
    SameChecks(r, b);
  }

  /** The verdict depends on four facts about each event. */
  lemma SameChecks(r: Batch, b: Batch)
    requires r.schemaVersion == b.schemaVersion && r.batchId == b.batchId && r.tenancy == b.tenancy
    requires |r.events| == |b.events|
    requires forall i :: 0 <= i < |b.events| ==>
               && r.events[i].schemaVersion == b.events[i].schemaVersion
               && NamedEvent(r.events[i]) == NamedEvent(b.events[i])
               && r.events[i].tenancy == b.events[i].tenancy
               && CaptureMatches(r.events[i]) == CaptureMatches(b.events[i])
    ensures Validate(r) == Validate(b)
  {
    hide Blank, NamedEvent, CaptureMatches, NamedTenancy;
  }
}
