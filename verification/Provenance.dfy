/** Where stored bodies come from: with a hash that is collision-free on the bodies of
    the run, torn content included, a spool only ever holds bodies that were enqueued. */
module Provenance {
  import opened Primitives
  import opened Spool

  /** Collision-free on the bodies that occur, and only on those. */
  ghost predicate CollisionFree(hash: Bytes -> Id, occurs: Bytes -> bool) {
    forall a, b | occurs(a) && occurs(b) && hash(a) == hash(b) :: a == b
  }

  ghost predicate AllFrom(created: set<Bytes>, files: Files) {
    forall id | id in files :: files[id] in created
  }

  /** Temporary files carry the id of an enqueued body, whatever their content. */
  ghost predicate NamedFrom(hash: Bytes -> Id, created: set<Bytes>, files: Files) {
    forall id | id in files :: exists b :: b in created && hash(b) == id
  }

  ghost predicate Occurring(occurs: Bytes -> bool, files: Files) {
    forall id | id in files :: occurs(files[id])
  }

  ghost predicate Origin(hash: Bytes -> Id, occurs: Bytes -> bool, created: set<Bytes>, s: State) {
    && (forall b | b in created :: occurs(b))
    && AllFrom(created, s.disk.pending) && AllFrom(created, s.disk.quarantine)
    && NamedFrom(hash, created, s.disk.temp)
    && (s.op.Recovering? ==> Occurring(occurs, s.disk.temp))
    && ((s.op.Writing? || s.op.Synced? || s.op.Renamed?) ==> s.op.body in created)
    && (s.op.Removed? ==> s.op.content in created)
  }

  function Created(created: set<Bytes>, c: Call): set<Bytes> {
    if c.Create? then created + {c.body} else created
  }

  /** The bodies a call brings into the run. */
  ghost predicate Brings(occurs: Bytes -> bool, c: Call) {
    (c.Create? ==> occurs(c.body)) && (c.Crash? ==> occurs(c.torn))
  }

  lemma OriginStep(hash: Bytes -> Id, occurs: Bytes -> bool, max: nat, created: set<Bytes>, s: State, c: Call)
    requires CollisionFree(hash, occurs) && Sound(hash, max, s) && Origin(hash, occurs, created, s)
    requires Enabled(hash, max, s, c) && Brings(occurs, c)
    ensures Origin(hash, occurs, Created(created, c), Apply(hash, s, c))
  {
    hide Total, Room, Fits;
    if c.Crash? {
      OriginCrash(hash, occurs, max, created, s, c.torn, c.undo);
    } else if c.Recover? {
      OriginRecover(hash, occurs, created, s, c.id);
    } else if c.Create? {
      OriginCreate(hash, occurs, created, s, c.body);
    }
  }

  lemma OriginCreate(hash: Bytes -> Id, occurs: Bytes -> bool, created: set<Bytes>, s: State, body: Bytes)
    requires Origin(hash, occurs, created, s) && occurs(body)
    ensures Origin(hash, occurs, created + {body}, Apply(hash, s, Create(body)))
  {
    var t := s.disk.temp[hash(body) := []];
    forall id | id in t ensures exists b :: b in created + {body} && hash(b) == id {
      if id == hash(body) {
        assert body in created + {body};
      } else {
        var b :| b in created && hash(b) == id;
        assert b in created + {body};
      }
    }
  }

  lemma OriginRecover(hash: Bytes -> Id, occurs: Bytes -> bool, created: set<Bytes>, s: State, id: Id)
    requires CollisionFree(hash, occurs) && Origin(hash, occurs, created, s) && s.op.Recovering? && id in s.disk.temp
    ensures Origin(hash, occurs, created, Apply(hash, s, Recover(id)))
  {
    var b :| b in created && hash(b) == id;
    assert hash(s.disk.temp[id]) == id ==> s.disk.temp[id] == b;
  }

  lemma OriginCrash(
    hash: Bytes -> Id, occurs: Bytes -> bool, max: nat, created: set<Bytes>, s: State, torn: Bytes, undo: Undo
  )
    requires Sound(hash, max, s) && Origin(hash, occurs, created, s) && occurs(torn)
    ensures Origin(hash, occurs, created, State(Crashed(hash, s, torn, undo), Recovering(None)))
  {
    hide Total, Room, Fits;
    var d := Crashed(hash, s, torn, undo);
    forall id | id in d.temp ensures occurs(d.temp[id]) && exists b :: b in created && hash(b) == id {
      if id !in s.disk.temp {
        assert s.disk.pending[id] in created;
      }
    }
  }
}
