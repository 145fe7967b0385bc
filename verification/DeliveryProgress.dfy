/** Delivery stays possible: from every reachable state of the two-hop protocol, hosts that
    crashed or stopped in the middle of an operation included, a batch that is pending once
    they are up again, and that the Outpost admits and has room for, can be delivered. */
module DeliveryProgress {
  import opened Primitives
  import opened Spool
  import opened Provenance
  import opened Hops
  import opened Delivery
  import opened HostRuns
  import opened SpoolOperations

  /** The five calls of an enqueue run through and leave the body pending. */
  lemma StoreRuns(hash: Bytes -> Id, max: nat, s: Spool.State, e: Bytes)
    requires s.op.Idle? && s.disk.temp == map[] && hash(e) !in s.disk.pending && hash(e) !in s.disk.quarantine
    requires Room(s.disk, max, |e|)
    ensures Run(hash, max, s, StoreCalls(e))
    ensures After(hash, s, StoreCalls(e)).op.Idle? && hash(e) in After(hash, s, StoreCalls(e)).disk.pending
  {
    hide Room, Run, After;
    assert e[..|e|] == e;
    var a := Apply(hash, s, Create(e));
    var b := Apply(hash, a, Write(|e|));
    var c := Apply(hash, b, SyncFile);
    RunTwo(hash, max, s, Create(e), Write(|e|));
    RunTwo(hash, max, b, SyncFile, Rename);
    RunOne(hash, max, Apply(hash, c, Rename), SyncDirectory);
    RunJoin(hash, max, s, [Create(e), Write(|e|)], [SyncFile, Rename]);
    RunJoin(hash, max, s, [Create(e), Write(|e|)] + [SyncFile, Rename], [SyncDirectory]);
    assert [Create(e), Write(|e|)] + [SyncFile, Rename] + [SyncDirectory] == StoreCalls(e);
  }

  lemma {:induction false} RunJoin(hash: Bytes -> Id, max: nat, s: Spool.State, first: seq<Call>, second: seq<Call>)
    requires Run(hash, max, s, first) && Run(hash, max, After(hash, s, first), second)
    ensures Run(hash, max, s, first + second)
    ensures After(hash, s, first + second) == After(hash, After(hash, s, first), second)
    decreases |second|
  {
    hide Enabled, Apply;
    if second == [] {
      assert first + second == first;
    } else {
      var init := second[..|second| - 1];
      assert (first + second)[..|first + second| - 1] == first + init;
      RunJoin(hash, max, s, first, init);
    }
  }

  /** The Outpost stores an admitted body. */
  lemma StoreAtOutpost(w: World, steps: seq<Step>, e: Bytes) returns (more: seq<Step>)
    requires Behaviour(w, steps)
    requires var s := Reached(w, steps);
             && s.outpost.op.Idle? && s.outpost.disk.temp == map[] && w.occurs(e) && Admitted(w, s.posts, e)
             && w.hash(e) !in s.outpost.disk.quarantine
             && (w.hash(e) in s.outpost.disk.pending || Room(s.outpost.disk, w.outpostMax, |e|))
    ensures steps <= more && Behaviour(w, more)
    ensures var s, t := Reached(w, steps), Reached(w, more);
            && t == s.(outpost := t.outpost, stored := t.stored) && t.outpost.op.Idle?
            && w.hash(e) in t.outpost.disk.pending
  {
    hide Admitted, Room, Behaviour, Reached, Run, After, OutpostMay;
    more := steps;
    var s := Reached(w, steps);
    if w.hash(e) !in s.outpost.disk.pending {
      StoreRuns(w.hash, w.outpostMax, s.outpost, e);
      StoresAtOutpost(w, s, e);
      more := OutpostRuns(w, steps, StoreCalls(e));
    }
  }

  lemma StoresAtOutpost(w: World, s: Protocol, e: Bytes)
    requires w.occurs(e) && Admitted(w, s.posts, e)
    ensures forall c | c in StoreCalls(e) :: OutpostMay(w, s, c)
  {
    hide Admitted, Brings, Allowed;
    StoreMay(w.occurs, s.receipts, OutpostVerdict, e);
  }

  lemma PostIt(w: World, steps: seq<Step>, id: Id, header: Option<Bytes>) returns (more: seq<Step>)
    requires Behaviour(w, steps) && Can(w, Reached(w, steps), Post(id, header))
    ensures steps <= more && Behaviour(w, more)
    ensures var s, t := Reached(w, steps), Reached(w, more);
            && id in s.observer.disk.pending
            && t == s.(posts := s.posts + {(id, s.observer.disk.pending[id], header)})
  {
    hide Behaviour, Reached;
    more := Extend(w, steps, Post(id, header));
  }

  /** The Outpost answers 202 and the Observer lets go of its copy. */
  lemma AcknowledgeAtObserver(w: World, steps: seq<Step>, id: Id, body: Bytes, m: Mappings, header: Option<Bytes>)
    returns (more: seq<Step>)
    requires Behaviour(w, steps)
    requires var s := Reached(w, steps);
             && (id, body, header) in s.posts && s.observer.op.Idle? && id in s.observer.disk.pending
             && Can(w, s, Answer202(id, body, m, header))
    ensures steps <= more && Behaviour(w, more)
    ensures var s, t := Reached(w, steps), Reached(w, more);
            && t == s.(observer := t.observer, replies := t.replies)
            && t.observer.op.Idle? && id !in t.observer.disk.pending
  {
    hide Admit, Behaviour, Reached;
    more := Extend(w, steps, Answer202(id, body, m, header));
    assert (id, 202) in Reached(w, more).replies && ObserverVerdict(202) == Acknowledge;
    more := Extend(w, more, ObserverCall(Remove(id)));
    more := Extend(w, more, ObserverCall(SyncDirectory));
  }

  /** The destination accepts and the Outpost lets go of its copy. */
  lemma AcceptAtDestination(w: World, steps: seq<Step>, id: Id) returns (more: seq<Step>)
    requires Behaviour(w, steps)
    requires var s := Reached(w, steps);
             && s.outpost.op.Idle? && id in s.outpost.disk.pending && KeyOf(w, s.outpost.disk.pending[id]).Some?
    ensures steps <= more && Behaviour(w, more)
    ensures var s, t := Reached(w, steps), Reached(w, more);
            && t.observer == s.observer && t.outpost.op.Idle? && id !in t.outpost.disk.pending
            && Accepted(w, t, KeyOf(w, s.outpost.disk.pending[id]))
  {
    hide Behaviour, Reached;
    var body := Reached(w, steps).outpost.disk.pending[id];
    more := Extend(w, steps, Forward(id));
    more := Extend(w, more, Accept(id, body, 202));
    assert (id, 202) in Reached(w, more).receipts && OutpostVerdict(202) == Acknowledge;
    more := Extend(w, more, OutpostCall(Remove(id)));
    more := Extend(w, more, OutpostCall(SyncDirectory));
  }

  /** With both hosts up, a batch that is pending at the Observer, that the Outpost admits,
      has room for and has not quarantined, can be brought to the destination, after which
      neither host holds it as pending. */
  lemma DeliveryFromUp(w: World, steps: seq<Step>, id: Id, m: Mappings, header: Option<Bytes>)
    returns (more: seq<Step>)
    requires Trusted(w) && Behaviour(w, steps)
    requires var s := Reached(w, steps);
             && s.observer.op.Idle? && s.outpost.op.Idle? && id in s.observer.disk.pending
             && var e := Admit(w.codec, w.config, m, header, s.observer.disk.pending[id]);
                && e.Ok? && w.occurs(e.value) && w.hash(e.value) !in s.outpost.disk.quarantine
                && (w.hash(e.value) in s.outpost.disk.pending || Room(s.outpost.disk, w.outpostMax, |e.value|))
    ensures steps <= more && Behaviour(w, more)
    ensures var s, t := Reached(w, steps), Reached(w, more);
            var body := s.observer.disk.pending[id];
            && Accepted(w, t, KeyOf(w, body))
            && id !in t.observer.disk.pending
            && w.hash(Admit(w.codec, w.config, m, header, body).value) !in t.outpost.disk.pending
  {
    hide Trusted, Behaviour, Reached, Admit, KeyOf, Room, Can, Next, Inv, Admitted;
    var s := Reached(w, steps);
    var body := s.observer.disk.pending[id];
    var e := Admit(w.codec, w.config, m, header, body).value;
    AdmittedKey(w, m, header, body);
    RunInv(w, steps);
    NoTemporaries(w, s);
    CanPost(w, s, id, header);
    more := PostIt(w, steps, id, header);
    AdmittedHere(w, Reached(w, more).posts, id, body, m, header);
    more := StoreAtOutpost(w, more, e);
    RunInv(w, more);
    StoredContent(w, Reached(w, more), e);
    CanAnswer(w, Reached(w, more), id, body, m, header);
    more := AcknowledgeAtObserver(w, more, id, body, m, header);
    more := AcceptAtDestination(w, more, w.hash(e));
  }

  // ---------------------------------------------------------------- bringing a host up

  /** What is on the disk once the host is up again and idle. */
  function Restart(hash: Bytes -> Id, s: Spool.State): Disk {
    if s.op.Recovering? then Recovered(hash, s.disk) else s.disk.(temp := map[])
  }

  lemma RunOne(hash: Bytes -> Id, max: nat, s: Spool.State, c: Call)
    requires Enabled(hash, max, s, c)
    ensures Run(hash, max, s, [c]) && After(hash, s, [c]) == Apply(hash, s, c)
  {
    hide Enabled, Apply;
    assert [c][..0] == [];
    NothingRuns(hash, max, s);
  }

  lemma RunTwo(hash: Bytes -> Id, max: nat, s: Spool.State, c: Call, d: Call)
    requires Enabled(hash, max, s, c) && Enabled(hash, max, Apply(hash, s, c), d)
    ensures Run(hash, max, s, [c, d]) && After(hash, s, [c, d]) == Apply(hash, Apply(hash, s, c), d)
  {
    hide Enabled, Apply;
    RunOne(hash, max, s, c);
    assert [c, d][..1] == [c];
  }

  lemma RecoverOnly(hash: Bytes -> Id, d: Disk, id: Id)
    requires d.temp.Keys == {id}
    ensures RecoverEntry(hash, d, id).0 == Recovered(hash, d)
  {
    var e := RecoverEntry(hash, d, id).0;
    RecoveredStep(hash, d, id);
    assert e.temp == map[];
    RecoveredDone(hash, e);
  }

  /** A host finishes what it was at, recovers, or restarts before it had stored anything. */
  lemma Restarts(hash: Bytes -> Id, max: nat, occurs: Bytes -> bool, created: set<Bytes>, s: Spool.State)
    returns (calls: seq<Call>)
    requires Sound(hash, max, s) && Origin(hash, occurs, created, s)
    ensures Run(hash, max, s, calls) && After(hash, s, calls) == Spool.State(Restart(hash, s), Idle)
    ensures forall c | c in calls :: Brings(occurs, c) && !c.Create? && !c.Remove? && !c.Isolate?
  {
    hide Total, Fits, Room, ContentAddressed, Run, After, Recovered;
    var d := s.disk;
    NothingRuns(hash, max, s);
    match s.op
    case Idle => calls := [];
    case Recovering(_) =>
      if d.temp == map[] {
        calls := [Opened];
        RunOne(hash, max, s, Opened);
        RecoveredDone(hash, d);
      } else {
        var id :| id in d.temp;
        assert d.temp.Keys == {id};
        calls := [Recover(id), Opened];
        RecoverOnly(hash, d, id);
        RunTwo(hash, max, s, Recover(id), Opened);
      }
    case Writing(body) =>
      calls := RestartsWrite(hash, max, s);
    case Synced(body) =>
      calls := RestartsWrite(hash, max, s);
    case _ =>
      calls := [SyncDirectory];
      RunOne(hash, max, s, SyncDirectory);
      assert d.temp == map[];
  }

  lemma RestartsWrite(hash: Bytes -> Id, max: nat, s: Spool.State) returns (calls: seq<Call>)
    requires Sound(hash, max, s) && (s.op.Writing? || s.op.Synced?)
    ensures Run(hash, max, s, calls) && After(hash, s, calls) == Spool.State(Restart(hash, s), Idle)
    ensures calls == [Crash(s.op.body, Gone), Opened]
  {
    hide Total, Fits, Room, ContentAddressed, Run, After;
    calls := [Crash(s.op.body, Gone), Opened];
    assert s.disk.temp - {hash(s.op.body)} == map[];
    RunTwo(hash, max, s, Crash(s.op.body, Gone), Opened);
  }

  /** Both hosts brought up, with nothing else changed. */
  lemma BringUp(w: World, steps: seq<Step>) returns (more: seq<Step>)
    requires Trusted(w) && Behaviour(w, steps)
    ensures steps <= more && Behaviour(w, more)
    ensures var s := Reached(w, steps);
            Reached(w, more) == s.(observer := Spool.State(Restart(w.hash, s.observer), Idle),
                                   outpost := Spool.State(Restart(w.hash, s.outpost), Idle))
  {
    hide Trusted, Behaviour, Reached, Sound, Origin, Run, After, Restart, Traced, Honest, Safe;
    RunInv(w, steps);
    var s := Reached(w, steps);
    var first := Restarts(w.hash, w.observerMax, w.occurs, s.flushed, s.observer);
    more := ObserverRuns(w, steps, first);
    NoneCreated(s.flushed, first);
    var second := Restarts(w.hash, w.outpostMax, w.occurs, s.stored, s.outpost);
    more := OutpostRuns(w, more, second);
    NoneCreated(s.stored, second);
  }

  /** From every reachable state: a batch that is pending at the Observer once it is up,
      that the Outpost admits, and then has room for and has not quarantined, can still be
      brought to the destination, after which neither host holds it as pending. */
  lemma DeliveryPossible(w: World, steps: seq<Step>, id: Id, m: Mappings, header: Option<Bytes>)
    returns (more: seq<Step>)
    requires Trusted(w) && Behaviour(w, steps)
    requires var s := Reached(w, steps);
             var observer, outpost := Restart(w.hash, s.observer), Restart(w.hash, s.outpost);
             && id in observer.pending
             && var e := Admit(w.codec, w.config, m, header, observer.pending[id]);
                && e.Ok? && w.occurs(e.value) && w.hash(e.value) !in outpost.quarantine
                && (w.hash(e.value) in outpost.pending || Room(outpost, w.outpostMax, |e.value|))
    ensures steps <= more && Behaviour(w, more)
    ensures var s, t := Reached(w, steps), Reached(w, more);
            var body := Restart(w.hash, s.observer).pending[id];
            && Accepted(w, t, KeyOf(w, body))
            && id !in t.observer.disk.pending
            && w.hash(Admit(w.codec, w.config, m, header, body).value) !in t.outpost.disk.pending
  {
    hide Trusted, Behaviour, Reached, Admit, KeyOf, Room, Restart, Accepted;
    var up := BringUp(w, steps);
    more := DeliveryFromUp(w, up, id, m, header);
  }

  lemma CanPost(w: World, s: Protocol, id: Id, header: Option<Bytes>)
    requires s.observer.op.Idle? && id in s.observer.disk.pending && KeyOf(w, s.observer.disk.pending[id]).Some?
    ensures Can(w, s, Post(id, header))
  {
  }

  lemma AdmittedHere(w: World, posts: set<Posted>, id: Id, body: Bytes, m: Mappings, header: Option<Bytes>)
    requires (id, body, header) in posts && Admit(w.codec, w.config, m, header, body).Ok?
    ensures Admitted(w, posts, Admit(w.codec, w.config, m, header, body).value)
  {
    hide Admit;
  }

  lemma CanAnswer(w: World, s: Protocol, id: Id, body: Bytes, m: Mappings, header: Option<Bytes>)
    requires (id, body, header) in s.posts && s.outpost.op.Idle?
    requires var e := Admit(w.codec, w.config, m, header, body);
             e.Ok? && w.occurs(e.value) && w.hash(e.value) in s.outpost.disk.pending
    ensures Can(w, s, Answer202(id, body, m, header))
  {
    hide Admit;
  }

  lemma NoTemporaries(w: World, s: Protocol)
    requires Inv(w, s) && s.outpost.op.Idle?
    ensures s.outpost.disk.temp == map[]
  {
    hide Total;
  }

  lemma StoredContent(w: World, s: Protocol, e: Bytes)
    requires Trusted(w) && Inv(w, s) && w.occurs(e) && w.hash(e) in s.outpost.disk.pending
    ensures s.outpost.disk.pending[w.hash(e)] == e
  {
    hide Total, Traced, Honest, Safe;
    PendingFrom(w.hash, w.occurs, w.outpostMax, s.stored, s.outpost, w.hash(e));
  }
}
