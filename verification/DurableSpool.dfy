/** The spool's own operations (`DurableSpool`, crates/spool/src/lib.rs), as sequences of
    the file-system calls of module Spool. The calls made so far are kept in a ghost log,
    so whatever is proved about runs of calls holds of every object of this class. */
module SpoolOperations {
  import opened Primitives
  import opened Spool

  datatype SpoolError =
    | CapacityExceeded(currentBytes: nat, incomingBytes: nat, maxBytes: nat)
    | NotFound

  datatype PendingItem = PendingItem(id: Id, bytes: nat)

  /** Ids in the order of their bytes. */
  predicate Less(a: Id, b: Id) {
    b != [] && (a == [] || a[0] < b[0] || (a[0] == b[0] && Less(a[1..], b[1..])))
  }

  lemma {:induction false} LessTotal(a: Id, b: Id)
    ensures a == b || Less(a, b) || Less(b, a)
    ensures !Less(a, a)
  {
    if a == [] || b == [] {
      if a != [] { LessTotal(a[1..], []); }
    } else {
      LessTotal(a[1..], b[1..]);
      assert a == [a[0]] + a[1..] && b == [b[0]] + b[1..];
    }
  }

  lemma {:induction false} LessTransitive(a: Id, b: Id, c: Id)
    requires Less(a, b) && Less(b, c)
    ensures Less(a, c)
  {
    if a == [] || a[0] < b[0] || b[0] < c[0] {
    } else {
      LessTransitive(a[1..], b[1..], c[1..]);
    }
  }

  lemma LessAsymmetric(a: Id, b: Id)
    ensures !(Less(a, b) && Less(b, a))
  {
    hide Less;
    LessTotal(a, a);
    if Less(a, b) && Less(b, a) { LessTransitive(a, b, a); }
  }

  ghost predicate Ascending(items: seq<PendingItem>) {
    forall i, j :: 0 <= i < j < |items| ==> Less(items[i].id, items[j].id)
  }

  /** The item in its place among sorted ones. */
  function InOrder(item: PendingItem, items: seq<PendingItem>): seq<PendingItem> {
    if items == [] then [item]
    else if Less(item.id, items[0].id) then [item] + items
    else [items[0]] + InOrder(item, items[1..])
  }

  lemma {:induction false} InOrderMeans(item: PendingItem, items: seq<PendingItem>)
    requires Ascending(items) && forall x | x in items :: x.id != item.id
    ensures Ascending(InOrder(item, items))
    ensures forall x :: x in InOrder(item, items) <==> x == item || x in items
  {
    hide Less;
    if items == [] {
    } else if Less(item.id, items[0].id) {
      forall j | 0 <= j < |items| ensures Less(item.id, items[j].id) {
        if j > 0 { LessTransitive(item.id, items[0].id, items[j].id); }
      }
    } else {
      var rest := InOrder(item, items[1..]);
      InOrderMeans(item, items[1..]);
      LessTotal(item.id, items[0].id);
      assert items[0] in items;
      assert items == [items[0]] + items[1..];
      forall x | x in rest ensures Less(items[0].id, x.id) {
        if x != item {
          var n :| 0 <= n < |items[1..]| && items[1..][n] == x;
          assert items[n + 1] == x;
        }
      }
    }
  }

  lemma AscendingDistinct(items: seq<PendingItem>)
    requires Ascending(items)
    ensures forall i, j :: 0 <= i < j < |items| ==> items[i].id != items[j].id
  {
    hide Less;
    forall i, j | 0 <= i < j < |items| ensures items[i].id != items[j].id {
      LessTotal(items[i].id, items[i].id);
    }
  }

  /** The calls that store one body. */
  function StoreCalls(body: Bytes): seq<Call> {
    [Create(body), Write(|body|), SyncFile, Rename, SyncDirectory]
  }

  /** Number and size of the files that are not left to count. */
  ghost function Counted(files: Files, left: set<Id>): (nat, nat) {
    (|files - left|, Total(files - left))
  }

  lemma CountOne(files: Files, left: set<Id>, id: Id)
    requires left <= files.Keys && id in left
    ensures Counted(files, left - {id}).0 == Counted(files, left).0 + 1
    ensures Counted(files, left - {id}).1 == Counted(files, left).1 + |files[id]|
  {
    hide Total;
    var more, counted := files - (left - {id}), files - left;
    assert more == counted[id := files[id]];
    TotalInsert(counted, id, files[id]);
    assert more.Keys == counted.Keys + {id};
    assert |more.Keys| == |more| && |counted.Keys| == |counted|;
  }

  lemma CountEnds(files: Files)
    ensures Counted(files, files.Keys) == (0, 0) && Counted(files, {}) == (|files|, Total(files))
  {
    hide Total;
    assert files - files.Keys == map[] && files - {} == files;
    TotalEmpty();
  }

  /** `directory_stats` */
  method DirectoryStats(files: Files) returns (items: nat, bytes: nat)
    ensures items == SaturateU64(|files|)
    ensures bytes == SaturateU64(Total(files))
  {
    hide Total, Counted;
    CountEnds(files);
    items, bytes := 0, 0;
    var left := files.Keys;
    while left != {}
      invariant left <= files.Keys
      invariant items == SaturateU64(Counted(files, left).0) && bytes == SaturateU64(Counted(files, left).1)
      decreases |left|
    {
      var id :| id in left;
      CountOne(files, left, id);
      items := SaturateU64(items + 1);
      bytes := SaturateU64(bytes + |files[id]|);
      left := left - {id};
    }
  }

  /** The temporary files that hold a complete body not stored yet. */
  function Promoted(hash: Bytes -> Id, d: Disk): Files {
    map id | id in d.temp && id !in d.pending && id !in d.quarantine && hash(d.temp[id]) == id :: d.temp[id]
  }

  function Recovered(hash: Bytes -> Id, d: Disk): Disk {
    Disk(d.pending + Promoted(hash, d), d.quarantine, map[])
  }

  /** One entry does not change where recovery ends. */
  lemma RecoveredStep(hash: Bytes -> Id, d: Disk, id: Id)
    requires id in d.temp
    ensures Recovered(hash, RecoverEntry(hash, d, id).0) == Recovered(hash, d)
  {
    var e := RecoverEntry(hash, d, id).0;
    var p, q := Promoted(hash, d), Promoted(hash, e);
    assert q == p - {id};
    assert e.pending == if id in p then d.pending[id := p[id]] else d.pending;
    assert e.pending + q == d.pending + p;
  }

  lemma LogStep(hash: Bytes -> Id, max: nat, start: State, log: seq<Call>, c: Call)
    requires Run(hash, max, start, log) && Enabled(hash, max, After(hash, start, log), c)
    ensures Run(hash, max, start, log + [c])
    ensures After(hash, start, log + [c]) == Apply(hash, After(hash, start, log), c)
  {
    hide Enabled, Apply;
    assert (log + [c])[..|log|] == log;
  }

  class DurableSpool {
    const hash: Bytes -> Id
    const maxBytes: nat
    var disk: Disk
    var op: Op
    ghost const start: State
    ghost var log: seq<Call>

    /** The disk is what the logged calls made of the starting one. */
    ghost predicate Logged()
      reads this
    {
      Run(hash, maxBytes, start, log) && After(hash, start, log) == State(disk, op)
    }

    ghost predicate Valid()
      reads this
    {
      Sound(hash, maxBytes, start) && Logged() && op.Idle?
    }

    lemma Invariant()
      requires Valid()
      ensures Sound(hash, maxBytes, State(disk, op))
    {
      hide Sound, Run, After;
      SpoolInvariant(hash, maxBytes, start, log);
    }

    lemma Apart()
      requires Valid()
      ensures disk.pending.Keys !! disk.quarantine.Keys
    {
      hide Run, After;
      Invariant();
    }

    /** One file-system call. */
    method Perform(c: Call)
      requires Logged() && Enabled(hash, maxBytes, State(disk, op), c)
      modifies this
      ensures Logged() && log == old(log) + [c]
      ensures State(disk, op) == Apply(hash, old(State(disk, op)), c)
    {
      hide Enabled, Apply;
      LogStep(hash, maxBytes, start, log, c);
      var next := Apply(hash, State(disk, op), c);
      disk := next.disk;
      op := next.op;
      log := log + [c];
    }

    /** `open` on whatever a crash left: every complete temporary file is promoted unless
        it is stored already, every other one is removed, nothing else changes. */
    constructor Open(hash: Bytes -> Id, maxBytes: nat, d: Disk)
      ensures this.hash == hash && this.maxBytes == maxBytes && start == State(d, Recovering(None))
      ensures disk == Recovered(hash, d) && op == Idle && Logged()
      ensures disk.temp == map[] && disk.quarantine == d.quarantine
      ensures forall id :: id in disk.pending <==>
                id in d.pending || (id in d.temp && id !in d.quarantine && hash(d.temp[id]) == id)
      ensures forall id | id in disk.pending ::
                disk.pending[id] == if id in d.pending then d.pending[id] else d.temp[id]
      ensures Sound(hash, maxBytes, State(d, Recovering(None))) ==> Valid()
    {
      this.hash := hash;
      this.maxBytes := maxBytes;
      disk := d;
      op := Recovering(None);
      start := State(d, Recovering(None));
      log := [];
      new;
      hide RecoverEntry, Recovered, Run, After, Sound;
      RunStart(hash, maxBytes, start);
      while disk.temp != map[]
        invariant start == State(d, Recovering(None))
        invariant Logged() && op.Recovering? && Recovered(hash, disk) == Recovered(hash, d)
        decreases |disk.temp|
      {
        var id :| id in disk.temp;
        RecoveredStep(hash, disk, id);
        EntryShrinks(hash, disk, id);
        Perform(Recover(id));
      }
      RecoveredDone(hash, disk);
      RecoveredMeans(hash, d);
      Perform(Opened);
    }

    /** `enqueue`: a body already pending or quarantined is left as it is; one that does
        not fit is refused; otherwise it is written, synced, renamed and synced again. */
    method Enqueue(body: Bytes) returns (r: Result<Id, SpoolError>)
      requires Valid()
      modifies this
      ensures Valid()
      ensures var id, was := hash(body), old(disk);
              if id in was.pending || id in was.quarantine then
                r == Ok(id) && disk == was && log == old(log)
              else if !Room(was, maxBytes, |body|) then
                && r == Err(CapacityExceeded(SaturateU64(Total(was.pending) + Total(was.quarantine)), |body|, maxBytes))
                && disk == was && log == old(log)
              else
                && r == Ok(id) && disk == was.(pending := was.pending[id := body])
                && log == old(log) + StoreCalls(body)
    {
      hide Run, After, Total;
      Invariant();
      var id := hash(body);
      if id in disk.pending || id in disk.quarantine {
        return Ok(id);
      }
      var _, pendingBytes := DirectoryStats(disk.pending);
      var _, quarantineBytes := DirectoryStats(disk.quarantine);
      var current := SaturateU64(pendingBytes + quarantineBytes);
      if SaturateU64(current + |body|) > maxBytes {
        return Err(CapacityExceeded(current, |body|, maxBytes));
      }
      Store(body);
      r := Ok(id);
    }

    method Store(body: Bytes)
      requires Valid() && disk.temp == map[]
      requires hash(body) !in disk.pending && hash(body) !in disk.quarantine && Room(disk, maxBytes, |body|)
      modifies this
      ensures Valid()
      ensures disk == old(disk).(pending := old(disk).pending[hash(body) := body])
      ensures log == old(log) + StoreCalls(body)
    {
      hide Run, After, Sound, Room;
      ghost var id := hash(body);
      Perform(Create(body));
      assert body[..|body|] == body;
      Perform(Write(|body|));
      Perform(SyncFile);
      Perform(Rename);
      Perform(SyncDirectory);
      assert disk.temp == map[];
    }

    /** `pending`: each pending file once, in the order of the ids. */
    method Pending() returns (items: seq<PendingItem>)
      requires Valid()
      ensures Ascending(items)
      ensures forall i, j :: 0 <= i < j < |items| ==> items[i].id != items[j].id
      ensures forall item | item in items :: item.id in disk.pending && item.bytes == |disk.pending[item.id]|
      ensures forall id | id in disk.pending :: PendingItem(id, |disk.pending[id]|) in items
    {
      hide Less, InOrder, Run, After, Sound;
      items := [];
      var left := disk.pending.Keys;
      while left != {}
        invariant left <= disk.pending.Keys && Ascending(items)
        invariant forall item | item in items ::
                    item.id in disk.pending && item.id !in left && item.bytes == |disk.pending[item.id]|
        invariant forall id | id in disk.pending && id !in left :: PendingItem(id, |disk.pending[id]|) in items
        decreases |left|
      {
        var id :| id in left;
        InOrderMeans(PendingItem(id, |disk.pending[id]|), items);
        items := InOrder(PendingItem(id, |disk.pending[id]|), items);
        left := left - {id};
      }
      AscendingDistinct(items);
    }

    /** `acknowledge` removes the item, and may be repeated. */
    method Acknowledge(id: Id)
      requires Valid()
      modifies this
      ensures Valid()
      ensures disk == old(disk).(pending := old(disk).pending - {id})
      ensures log == old(log) + if id in old(disk).pending then [Remove(id), SyncDirectory] else []
    {
      hide Run, After, Total, Sound;
      if id in disk.pending {
        Perform(Remove(id));
        Perform(SyncDirectory);
      } else {
        assert disk.pending - {id} == disk.pending;
      }
    }

    /** `quarantine` moves the item aside with its content; on one already there it
        succeeds, on one that is nowhere it fails. */
    method Quarantine(id: Id) returns (r: Result<(), SpoolError>)
      requires Valid()
      modifies this
      ensures Valid()
      ensures var was := old(disk);
              if id in was.quarantine then r == Ok(()) && disk == was && log == old(log)
              else if id in was.pending then
                && r == Ok(())
                && disk == was.(pending := was.pending - {id}, quarantine := was.quarantine[id := was.pending[id]])
                && log == old(log) + [Isolate(id), SyncDirectory]
              else r == Err(NotFound) && disk == was && log == old(log)
    {
      Invariant();
      hide Run, After, Total;
      if id in disk.quarantine {
        Acknowledge(id);
        assert id !in old(disk).pending;
        assert disk == old(disk);
        return Ok(());
      }
      if id !in disk.pending {
        return Err(NotFound);
      }
      Perform(Isolate(id));
      Perform(SyncDirectory);
      r := Ok(());
    }
  }

  lemma RecoveredMeans(hash: Bytes -> Id, d: Disk)
    ensures var r := Recovered(hash, d);
            && r.temp == map[] && r.quarantine == d.quarantine
            && (forall id :: id in r.pending <==>
                  id in d.pending || (id in d.temp && id !in d.quarantine && hash(d.temp[id]) == id))
            && (forall id | id in r.pending :: r.pending[id] == if id in d.pending then d.pending[id] else d.temp[id])
  {
  }

  lemma RunStart(hash: Bytes -> Id, max: nat, start: State)
    ensures Run(hash, max, start, []) && After(hash, start, []) == start
  {
  }

  lemma EntryShrinks(hash: Bytes -> Id, d: Disk, id: Id)
    requires id in d.temp
    ensures |RecoverEntry(hash, d, id).0.temp| < |d.temp|
  {
    var e := RecoverEntry(hash, d, id).0;
    assert e.temp.Keys == d.temp.Keys - {id};
    assert |e.temp.Keys| == |e.temp| && |d.temp.Keys| == |d.temp|;
  }

  lemma RecoveredDone(hash: Bytes -> Id, d: Disk)
    requires d.temp == map[]
    ensures Recovered(hash, d) == d
  {
    assert Promoted(hash, d) == map[];
  }
}
