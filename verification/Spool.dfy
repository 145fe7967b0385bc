/** The durable spool (crates/spool/src/lib.rs): a content-addressed queue of files with
    a quarantine, a byte capacity and crash recovery.

    The file system is modelled by three tables, `<id>.json`, `quarantine/<id>.json` and
    `.<id>.tmp`. Every operation is broken into the file-system calls it makes, and a
    crash may fall between any two of them. A crash tears content that was not synced,
    and may undo the last rename or removal whose directory was not synced; apart from
    crashes, calls succeed. SHA-256 is an arbitrary function `hash`. */
module Spool {
  import opened Primitives

  type Id = Bytes
  type Files = map<Id, Bytes>

  datatype Disk = Disk(pending: Files, quarantine: Files, temp: Files)

  /** Where the operation under the lock stands: what a crash would find half done. */
  datatype Op =
    | Idle
    | Writing(body: Bytes)
    | Synced(body: Bytes)
    | Renamed(body: Bytes)
    | Removed(id: Id, content: Bytes)
    | Isolated(id: Id)
    | Recovering(last: Option<Id>)

  datatype State = State(disk: Disk, op: Op)

  const EMPTY_DISK := Disk(map[], map[], map[])

  // ---------------------------------------------------------------- sizes

  ghost function Total(files: Files): nat
    decreases |files|
  {
    if files.Keys == {} then 0
    else
      var id :| id in files.Keys;
      |files[id]| + Total(files - {id})
  }

  lemma {:induction false} TotalRemove(files: Files, id: Id)
    requires id in files
    ensures Total(files) == |files[id]| + Total(files - {id})
    decreases |files|
  {
    var k :| k in files.Keys && Total(files) == |files[k]| + Total(files - {k});
    if k != id {
      TotalRemove(files - {k}, id);
      TotalRemove(files - {id}, k);
      assert files - {k} - {id} == files - {id} - {k};
    }
  }

  lemma TotalInsert(files: Files, id: Id, body: Bytes)
    requires id !in files
    ensures Total(files[id := body]) == |body| + Total(files)
  {
    TotalRemove(files[id := body], id);
    assert files[id := body] - {id} == files;
  }

  /** `current + incoming` stays within the limit, in saturating 64-bit arithmetic. */
  ghost predicate Room(d: Disk, max: nat, incoming: nat) {
    SaturateU64(Total(d.pending) + Total(d.quarantine) + incoming) <= max
  }

  // ---------------------------------------------------------------- file-system calls

  /** What a crash does to the last change whose directory was not synced: it survives,
      it is reverted, or the file it was about is gone. */
  datatype Undo = Keep | Back | Gone

  datatype Call =
    | Create(body: Bytes)
    | Write(length: nat)
    | SyncFile
    | Rename
    | SyncDirectory
    | Remove(id: Id)
    | Isolate(id: Id)
    | Crash(torn: Bytes, undo: Undo)
    | Recover(id: Id)
    | Opened

  /** The call is the next one some operation makes in this state. */
  ghost predicate Enabled(hash: Bytes -> Id, max: nat, s: State, c: Call) {
    var d := s.disk;
    match c
    case Create(body) =>
      s.op.Idle? && hash(body) !in d.pending && hash(body) !in d.quarantine && hash(body) !in d.temp && Room(d, max, |body|)
    case Write(length) => s.op.Writing? && length <= |s.op.body|
    case SyncFile => s.op.Writing? && hash(s.op.body) in d.temp && d.temp[hash(s.op.body)] == s.op.body
    case Rename => s.op.Synced?
    case SyncDirectory => s.op.Renamed? || s.op.Removed? || s.op.Isolated?
    case Remove(id) => s.op.Idle? && id in d.pending
    case Isolate(id) => s.op.Idle? && id in d.pending && id !in d.quarantine
    case Crash(torn, _) => s.op.Writing? ==> |torn| <= |s.op.body|
    case Recover(id) => s.op.Recovering? && id in d.temp
    case Opened => s.op.Recovering? && d.temp == map[]
  }

  /** `recover_temporary_files`, one entry. */
  function RecoverEntry(hash: Bytes -> Id, d: Disk, id: Id): (Disk, Option<Id>)
    requires id in d.temp
  {
    var cleared := d.(temp := d.temp - {id});
    if id in d.pending || id in d.quarantine then (cleared, None)
    else if hash(d.temp[id]) == id then (cleared.(pending := d.pending[id := d.temp[id]]), Some(id))
    else (cleared, None)
  }

  function Move(from: Files, to: Files, id: Id): (Files, Files)
    requires id in from
  {
    (from - {id}, to[id := from[id]])
  }

  /** What is on the disk after a crash. */
  function Crashed(hash: Bytes -> Id, s: State, torn: Bytes, undo: Undo): Disk {
    var d := s.disk;
    match s.op
    case Idle => d
    case Writing(body) =>
      if undo == Gone then d.(temp := d.temp - {hash(body)}) else d.(temp := d.temp[hash(body) := torn])
    case Synced(body) => if undo == Gone then d.(temp := d.temp - {hash(body)}) else d
    case Renamed(body) =>
      var id := hash(body);
      if undo == Gone then d.(pending := d.pending - {id})
      else if undo == Back && id in d.pending then
        var (pending, temp) := Move(d.pending, d.temp, id);
        d.(pending := pending, temp := temp)
      else d
    case Removed(id, content) => if undo == Back then d.(pending := d.pending[id := content]) else d
    case Isolated(id) =>
      if undo == Back && id in d.quarantine then
        var (quarantine, pending) := Move(d.quarantine, d.pending, id);
        d.(quarantine := quarantine, pending := pending)
      else d
    case Recovering(last) =>
      if undo == Back && last.Some? && last.value in d.pending then
        var (pending, temp) := Move(d.pending, d.temp, last.value);
        d.(pending := pending, temp := temp)
      else d
  }

  function Apply(hash: Bytes -> Id, s: State, c: Call): State {
    var d := s.disk;
    match c
    case Create(body) => State(d.(temp := d.temp[hash(body) := []]), Writing(body))
    case Write(length) =>
      if s.op.Writing? && length <= |s.op.body|
      then s.(disk := d.(temp := d.temp[hash(s.op.body) := s.op.body[..length]])) else s
    case SyncFile => if s.op.Writing? then s.(op := Synced(s.op.body)) else s
    case Rename =>
      if s.op.Synced? && hash(s.op.body) in d.temp then
        var (temp, pending) := Move(d.temp, d.pending, hash(s.op.body));
        State(d.(temp := temp, pending := pending), Renamed(s.op.body))
      else s
    case SyncDirectory => s.(op := Idle)
    case Remove(id) =>
      if id in d.pending then State(d.(pending := d.pending - {id}), Removed(id, d.pending[id])) else s
    case Isolate(id) =>
      if id in d.pending then
        var (pending, quarantine) := Move(d.pending, d.quarantine, id);
        State(d.(pending := pending, quarantine := quarantine), Isolated(id))
      else s
    case Crash(torn, undo) => State(Crashed(hash, s, torn, undo), Recovering(None))
    case Recover(id) =>
      if id in d.temp then
        var (disk, promoted) := RecoverEntry(hash, d, id);
        State(disk, Recovering(promoted))
      else s
    case Opened => s.(op := Idle)
  }

  // ---------------------------------------------------------------- the invariant

  ghost predicate ContentAddressed(hash: Bytes -> Id, files: Files) {
    forall id | id in files :: hash(files[id]) == id
  }

  ghost predicate Fits(d: Disk, max: nat) {
    SaturateU64(Total(d.pending) + Total(d.quarantine) + Total(d.temp)) <= max
  }

  /** Ids are hashes of content, the two directories are disjoint, and everything on the
      disk, temporary files included, fits the capacity. */
  ghost predicate DiskSound(hash: Bytes -> Id, max: nat, d: Disk) {
    && ContentAddressed(hash, d.pending) && ContentAddressed(hash, d.quarantine)
    && d.pending.Keys !! d.quarantine.Keys
    && Fits(d, max)
  }

  ghost predicate AtMostOne(files: Files) {
    forall a, b | a in files && b in files :: a == b
  }

  ghost predicate OpSound(hash: Bytes -> Id, max: nat, s: State) {
    var d := s.disk;
    match s.op
    case Idle => d.temp == map[]
    case Writing(body) =>
      var id := hash(body);
      && d.temp.Keys == {id} && |d.temp[id]| <= |body|
      && id !in d.pending && id !in d.quarantine && Room(d, max, |body|)
    case Synced(body) =>
      var id := hash(body);
      d.temp == map[id := body] && id !in d.pending && id !in d.quarantine && Room(d, max, |body|)
    case Renamed(body) => d.temp == map[] && hash(body) in d.pending && d.pending[hash(body)] == body
    case Removed(id, content) =>
      && d.temp == map[] && id !in d.pending && id !in d.quarantine
      && hash(content) == id && Room(d, max, |content|)
    case Isolated(id) => d.temp == map[] && id in d.quarantine
    case Recovering(last) =>
      AtMostOne(d.temp) && (last.Some? ==> d.temp == map[] && last.value in d.pending)
  }

  ghost predicate Sound(hash: Bytes -> Id, max: nat, s: State) {
    DiskSound(hash, max, s.disk) && OpSound(hash, max, s)
  }

  // ---------------------------------------------------------------- steps keep it

  lemma TotalEmpty()
    ensures Total(map[]) == 0
  {
  }

  lemma TotalOne(id: Id, body: Bytes)
    ensures Total(map[id := body]) == |body|
  {
    var files: Files := map[id := body];
    TotalRemove(files, id);
    assert files - {id} == map[];
    TotalEmpty();
  }

  lemma MoveTotal(from: Files, to: Files, id: Id)
    requires id in from && id !in to
    ensures var (f, t) := Move(from, to, id); Total(f) + Total(t) == Total(from) + Total(to)
  {
    TotalRemove(from, id);
    TotalInsert(to, id, from[id]);
  }

  lemma MoveAddressed(hash: Bytes -> Id, from: Files, to: Files, id: Id)
    requires ContentAddressed(hash, from) && ContentAddressed(hash, to) && id in from
    ensures var (f, t) := Move(from, to, id); ContentAddressed(hash, f) && ContentAddressed(hash, t)
  {
  }

  lemma WriteSound(hash: Bytes -> Id, max: nat, s: State, c: Call)
    requires Sound(hash, max, s) && Enabled(hash, max, s, c) && (c.Create? || c.Write? || c.SyncFile?)
    ensures Sound(hash, max, Apply(hash, s, c))
  {
    hide Total;
    var d := s.disk;
    TotalEmpty();
    match c
    case Create(body) =>
      TotalOne(hash(body), []);
      var none: Files := map[];
      assert none[hash(body) := []] == map[hash(body) := []];
    case Write(length) =>
      var id := hash(s.op.body);
      TotalOne(id, s.op.body[..length]);
      assert d.temp[id := s.op.body[..length]] == map[id := s.op.body[..length]];
    case SyncFile =>
      var id := hash(s.op.body);
      assert d.temp == map[id := s.op.body];
    case _ =>
  }

  lemma RenameSound(hash: Bytes -> Id, max: nat, s: State, c: Call)
    requires Sound(hash, max, s) && Enabled(hash, max, s, c) && (c.Rename? || c.SyncDirectory?)
    ensures Sound(hash, max, Apply(hash, s, c))
  {
    hide Total;
    if c.Rename? {
      var id := hash(s.op.body);
      MoveTotal(s.disk.temp, s.disk.pending, id);
      assert s.disk.temp - {id} == map[];
    }
  }

  lemma RemoveSound(hash: Bytes -> Id, max: nat, s: State, c: Call)
    requires Sound(hash, max, s) && Enabled(hash, max, s, c) && (c.Remove? || c.Isolate?)
    ensures Sound(hash, max, Apply(hash, s, c))
  {
    hide Total;
    TotalEmpty();
    if c.Remove? {
      TotalRemove(s.disk.pending, c.id);
    } else {
      MoveTotal(s.disk.pending, s.disk.quarantine, c.id);
      MoveAddressed(hash, s.disk.pending, s.disk.quarantine, c.id);
    }
  }

  lemma RecoverSound(hash: Bytes -> Id, max: nat, s: State, c: Call)
    requires Sound(hash, max, s) && Enabled(hash, max, s, c) && (c.Recover? || c.Opened?)
    ensures Sound(hash, max, Apply(hash, s, c))
  {
    hide Total;
    if c.Recover? {
      var d := s.disk;
      TotalRemove(d.temp, c.id);
      if c.id !in d.pending { TotalInsert(d.pending, c.id, d.temp[c.id]); }
    }
  }

  lemma CrashWriteSound(hash: Bytes -> Id, max: nat, s: State, torn: Bytes, undo: Undo)
    requires Sound(hash, max, s) && (s.op.Writing? || s.op.Synced? || s.op.Idle?)
    requires s.op.Writing? ==> |torn| <= |s.op.body|
    ensures Sound(hash, max, State(Crashed(hash, s, torn, undo), Recovering(None)))
  {
    hide Total;
    if !s.op.Idle? {
      var d, id := s.disk, hash(s.op.body);
      TotalOne(id, torn);
      TotalEmpty();
      assert d.temp - {id} == map[];
      assert d.temp[id := torn] == map[id := torn];
    }
  }

  lemma CrashMoveSound(hash: Bytes -> Id, max: nat, s: State, torn: Bytes, undo: Undo)
    requires Sound(hash, max, s) && !(s.op.Writing? || s.op.Synced? || s.op.Idle?)
    ensures Sound(hash, max, State(Crashed(hash, s, torn, undo), Recovering(None)))
  {
    hide Total;
    var d := s.disk;
    TotalEmpty();
    match s.op
    case Renamed(body) =>
      MoveTotal(d.pending, d.temp, hash(body));
      TotalRemove(d.pending, hash(body));
    case Removed(id, content) => TotalInsert(d.pending, id, content);
    case Isolated(id) =>
      MoveTotal(d.quarantine, d.pending, id);
      MoveAddressed(hash, d.quarantine, d.pending, id);
    case Recovering(last) => if last.Some? { MoveTotal(d.pending, d.temp, last.value); }
  }

  /** Every file-system call, and a crash at any point, keeps the spool sound. */
  lemma StepSound(hash: Bytes -> Id, max: nat, s: State, c: Call)
    requires Sound(hash, max, s) && Enabled(hash, max, s, c)
    ensures Sound(hash, max, Apply(hash, s, c))
  {
    hide Total, DiskSound, Room, Crashed;
    match c
    case Create(_) => WriteSound(hash, max, s, c);
    case Write(_) => WriteSound(hash, max, s, c);
    case SyncFile => WriteSound(hash, max, s, c);
    case Rename => RenameSound(hash, max, s, c);
    case SyncDirectory => RenameSound(hash, max, s, c);
    case Remove(_) => RemoveSound(hash, max, s, c);
    case Isolate(_) => RemoveSound(hash, max, s, c);
    case Recover(_) => RecoverSound(hash, max, s, c);
    case Opened => RecoverSound(hash, max, s, c);
    case Crash(torn, undo) =>
      if s.op.Writing? || s.op.Synced? || s.op.Idle? {
        CrashWriteSound(hash, max, s, torn, undo);
      } else {
        CrashMoveSound(hash, max, s, torn, undo);
      }
  }

  // ---------------------------------------------------------------- runs

  ghost predicate Run(hash: Bytes -> Id, max: nat, start: State, calls: seq<Call>)
    decreases |calls|, 0
  {
    calls != [] ==>
      && Run(hash, max, start, calls[..|calls| - 1])
      && Enabled(hash, max, After(hash, start, calls[..|calls| - 1]), calls[|calls| - 1])
  }

  function After(hash: Bytes -> Id, start: State, calls: seq<Call>): State
    decreases |calls|, 1
  {
    if calls == [] then start else Apply(hash, After(hash, start, calls[..|calls| - 1]), calls[|calls| - 1])
  }

  /** A run in two parts. */
  lemma {:induction false} RunSplit(hash: Bytes -> Id, max: nat, start: State, first: seq<Call>, second: seq<Call>)
    requires Run(hash, max, start, first + second)
    ensures Run(hash, max, start, first) && Run(hash, max, After(hash, start, first), second)
    ensures After(hash, start, first + second) == After(hash, After(hash, start, first), second)
    decreases |second|
  {
    hide Enabled, Apply;
    if second == [] {
      assert first + second == first;
    } else {
      var init := second[..|second| - 1];
      assert (first + second)[..|first + second| - 1] == first + init;
      RunSplit(hash, max, start, first, init);
    }
  }

  /** In every run, with crashes anywhere: each stored file's id is the hash of its
      content, no id is both pending and quarantined, and all files together fit the
      capacity, even while and after recovery promotes a temporary file. */
  lemma {:induction false} SpoolInvariant(hash: Bytes -> Id, max: nat, start: State, calls: seq<Call>)
    requires Sound(hash, max, start) && Run(hash, max, start, calls)
    ensures Sound(hash, max, After(hash, start, calls))
    decreases |calls|
  {
    hide Sound, Enabled, Apply;
    if calls == [] {
    } else {
      SpoolInvariant(hash, max, start, calls[..|calls| - 1]);
      StepSound(hash, max, After(hash, start, calls[..|calls| - 1]), calls[|calls| - 1]);
    }
  }

  /** Below the top of the 64-bit range the capacity bounds the true sum. */
  lemma CapacityIsTrue(hash: Bytes -> Id, max: nat, s: State)
    requires Sound(hash, max, s) && max < U64_MAX
    ensures Total(s.disk.pending) + Total(s.disk.quarantine) + Total(s.disk.temp) <= max
  {
    hide Total;
  }

  /** At the top it bounds nothing: the saturated sum never exceeds it. */
  lemma NoLimitAtTop(d: Disk, incoming: nat)
    ensures Room(d, U64_MAX, incoming)
  {
  }

  // ---------------------------------------------------------------- durability

  /** A rename of this file that a crash may still take back. */
  predicate Unsettled(hash: Bytes -> Id, op: Op, id: Id) {
    (op.Renamed? && hash(op.body) == id) || op == Recovering(Some(id))
  }

  /** The file is stored, pending or quarantined, and no crash can take it away. */
  predicate Holds(hash: Bytes -> Id, s: State, id: Id, body: Bytes) {
    || (id in s.disk.quarantine && s.disk.quarantine[id] == body)
    || (id in s.disk.pending && s.disk.pending[id] == body && !Unsettled(hash, s.op, id))
  }

  /** Nothing held is lost or altered, except by its own removal. */
  lemma HeldStable(hash: Bytes -> Id, max: nat, s: State, c: Call, id: Id, body: Bytes)
    requires Sound(hash, max, s) && Enabled(hash, max, s, c)
    requires Holds(hash, s, id, body) && c != Remove(id)
    ensures Holds(hash, Apply(hash, s, c), id, body)
  {
    hide Total, Room, Fits, ContentAddressed;
    if c.Crash? { HeldInCrash(hash, max, s, c.torn, c.undo, id, body); }
  }

  lemma HeldInCrash(hash: Bytes -> Id, max: nat, s: State, torn: Bytes, undo: Undo, id: Id, body: Bytes)
    requires Sound(hash, max, s) && Holds(hash, s, id, body)
    ensures Holds(hash, State(Crashed(hash, s, torn, undo), Recovering(None)), id, body)
  {
    hide Total, Room, Fits, ContentAddressed;
  }

  /** What one enqueue stored stays stored through any run in which it is not removed. */
  lemma {:induction false} HeldForever(hash: Bytes -> Id, max: nat, start: State, calls: seq<Call>, id: Id, body: Bytes)
    requires Sound(hash, max, start) && Run(hash, max, start, calls)
    requires Holds(hash, start, id, body) && Remove(id) !in calls
    ensures Holds(hash, After(hash, start, calls), id, body)
    decreases |calls|
  {
    hide Enabled, Apply, Sound, Holds;
    if calls == [] {
    } else {
      var init := calls[..|calls| - 1];
      HeldForever(hash, max, start, init, id, body);
      SpoolInvariant(hash, max, start, init);
      HeldStable(hash, max, After(hash, start, init), calls[|calls| - 1], id, body);
    }
  }

  /** A body whose quarantine is settled is never pending again. */
  lemma QuarantineFinal(hash: Bytes -> Id, max: nat, s: State, c: Call, id: Id)
    requires Sound(hash, max, s) && Enabled(hash, max, s, c)
    requires id in s.disk.quarantine && s.op != Isolated(id)
    ensures var t := Apply(hash, s, c);
            id in t.disk.quarantine && t.disk.quarantine[id] == s.disk.quarantine[id] && id !in t.disk.pending
            && t.op != Isolated(id)
  {
    hide Total, Room;
    StepSound(hash, max, s, c);
  }

  lemma {:induction false} NeverRetried(hash: Bytes -> Id, max: nat, start: State, calls: seq<Call>, id: Id)
    requires Sound(hash, max, start) && Run(hash, max, start, calls)
    requires id in start.disk.quarantine && start.op != Isolated(id)
    ensures var s := After(hash, start, calls);
            id in s.disk.quarantine && id !in s.disk.pending && s.op != Isolated(id)
    decreases |calls|
  {
    hide Enabled, Apply, DiskSound, OpSound;
    DisjointNow(hash, max, start);
    if calls == [] {
    } else {
      var init := calls[..|calls| - 1];
      NeverRetried(hash, max, start, init, id);
      SpoolInvariant(hash, max, start, init);
      QuarantineFinal(hash, max, After(hash, start, init), calls[|calls| - 1], id);
    }
  }

  lemma DisjointNow(hash: Bytes -> Id, max: nat, s: State)
    requires Sound(hash, max, s)
    ensures s.disk.pending.Keys !! s.disk.quarantine.Keys
  {
  }
}
