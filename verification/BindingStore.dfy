/** The two-file store: backup first, then primary, roll back on failure, recover by file time.
    A file replacement either happens, raises OSError, or is cut off by a crash of the process. */
module BindingStore {
  import opened Wrappers
  import opened Json
  import opened BindingState

  datatype File = File(content: Content, mtime: nat)

  datatype Disk = Disk(primary: Option<File>, backup: Option<File>)

  datatype Io = Completes | Raises | Crashes

  /** How one file operation ends, and the modification time a completed write leaves. */
  datatype Write = Write(io: Io, at: nat)

  /** The three file operations a persist may need, in order. */
  datatype Writes = Writes(backup: Write, primary: Write, rollback: Write)

  datatype Reply =
    | Done(binding: Option<Binding>)
    | Rejected
    | Failed
    | Died

  function Snapshot(m: Bindings): Content {
    Document(Serialize(m))
  }

  function Ended(io: Io): Reply {
    match io
    case Completes => Done(None)
    case Raises => Failed
    case Crashes => Died
  }

  function Persisted(d: Disk, next: Bindings, previous: Bindings, w: Writes): (Disk, Reply) {
    if !w.backup.io.Completes? then (d, Ended(w.backup.io))
    else
      var d1 := d.(backup := Some(File(Snapshot(next), w.backup.at)));
      match w.primary.io
      case Completes => (d1.(primary := Some(File(Snapshot(next), w.primary.at))), Done(None))
      case Crashes => (d1, Died)
      case Raises =>
        match w.rollback.io
        case Completes => (d1.(backup := if d.primary.Some? then Some(File(Snapshot(previous), w.rollback.at)) else None), Failed)
        case Raises => (d1, Failed)
        case Crashes => (d1, Died)
  }

  datatype LoadReply = Loaded(bindings: Bindings) | Refused | LoadFailed | LoadDied

  function Recovered(env: Env, d: Disk, w: Write): (Disk, LoadReply) {
    if d.primary.None? then (d, Loaded(map[]))
    else
      var fromPrimary := Read(env, d.primary.value.content);
      if fromPrimary.Ok? then (d, Loaded(fromPrimary.value))
      else if d.backup.None? || d.backup.value.mtime > d.primary.value.mtime then (d, Refused)
      else
        var fromBackup := Read(env, d.backup.value.content);
        if fromBackup.Err? then (d, Refused)
        else
          match w.io
          case Completes => (d.(primary := Some(File(Snapshot(fromBackup.value), w.at))), Loaded(fromBackup.value))
          case Raises => (d, LoadFailed)
          case Crashes => (d, LoadDied)
  }

  function BindingDict(groupId: string, memberId: string, boundBy: string, now: string, memberName: string): Json {
    Obj([Field("group_id", Str(groupId)), Field("member_id", Str(memberId)), Field("bound_by", Str(boundBy)),
         Field("bound_at", Str(now)), Field("member_name", Str(memberName))])
  }

  /** Disk, memory and reply after a `put` of the given binding. */
  function AfterPut(d: Disk, m: Bindings, b: Result<Binding, ValueError>, w: Writes): (Disk, Bindings, Reply) {
    if b.Err? then (d, m, Rejected)
    else
      var next := m[b.value.groupId := b.value];
      var (d', reply) := Persisted(d, next, m, w);
      if reply.Done? then (d', next, Done(Some(b.value))) else (d', m, reply)
  }

  function AfterRemove(d: Disk, m: Bindings, groupId: string, w: Writes): (Disk, Bindings, Reply) {
    if groupId !in m then (d, m, Done(None))
    else
      var (d', reply) := Persisted(d, m - {groupId}, m, w);
      if reply.Done? then (d', m - {groupId}, Done(Some(m[groupId]))) else (d', m, reply)
  }

  // ---- Runs: any sequence of calls, I/O errors, crashes, restarts and damaged files ----

  datatype Step =
    | Load(recovery: Write)
    | Put(groupId: string, memberId: string, boundBy: string, now: string, memberName: string, writes: Writes)
    | Remove(groupId: string, writes: Writes)
    | Exit
    | DamagePrimary(content: Content)
    | DamageBackup(content: Content)

  /** `memory` is None while no process has the store loaded.  `committed` is the map last moved
      into the primary; `settled` says that no later persist got past its backup write only. */
  datatype Store = Store(disk: Disk, memory: Option<Bindings>, committed: Option<Bindings>, settled: bool, clock: nat)

  const FRESH := Store(Disk(None, None), None, None, true, 0)

  function Committed(s: Store): Bindings {
    if s.committed.Some? then s.committed.value else map[]
  }

  predicate Strict(clock: nat, w: Writes) {
    clock < w.backup.at < w.primary.at < w.rollback.at
  }

  /** The file clock strictly advances from write to write. */
  predicate Timely(clock: nat, step: Step) {
    match step
    case Load(w) => clock < w.at
    case Put(_, _, _, _, _, w) => Strict(clock, w)
    case Remove(_, w) => Strict(clock, w)
    case _ => true
  }

  /** Bookkeeping for a persist of `next`; a dead process forgets its memory. */
  function AfterPersist(s: Store, disk: Disk, memory: Bindings, reply: Reply, w: Writes): Store {
    Store(disk,
          if reply.Died? then None else Some(memory),
          if reply.Done? then Some(memory) else s.committed,
          if reply.Done? then true else s.settled && !w.backup.io.Completes?,
          w.rollback.at)
  }

  function Damaged(env: Env, file: Option<File>, content: Content): Option<File> {
    if file.Some? && Read(env, content).Err? then Some(file.value.(content := content)) else file
  }

  function ExecPut(s: Store, b: Result<Binding, ValueError>, w: Writes): Store {
    if s.memory.None? || b.Err? then s.(clock := w.rollback.at)
    else
      var (disk, memory, reply) := AfterPut(s.disk, s.memory.value, b, w);
      AfterPersist(s, disk, memory, reply, w)
  }

  function Exec(env: Env, s: Store, step: Step): Store {
    match step
    case Load(w) =>
      var (disk, reply) := Recovered(env, s.disk, w);
      s.(disk := disk, memory := if reply.Loaded? then Some(reply.bindings) else None, clock := w.at)
    case Put(g, m, u, now, name, w) =>
      ExecPut(s, FromDict(env, BindingDict(g, m, u, now, name)), w)
    case Remove(g, w) =>
      if s.memory.None? || g !in s.memory.value then s.(clock := w.rollback.at)
      else
        var (disk, memory, reply) := AfterRemove(s.disk, s.memory.value, g, w);
        AfterPersist(s, disk, memory, reply, w)
    case Exit => s.(memory := None)
    case DamagePrimary(c) => s.(disk := s.disk.(primary := Damaged(env, s.disk.primary, c)))
    case DamageBackup(c) => s.(disk := s.disk.(backup := Damaged(env, s.disk.backup, c)))
  }

  function Run(env: Env, s: Store, steps: seq<Step>): Store {
    if steps == [] then s else Exec(env, Run(env, s, steps[..|steps| - 1]), steps[|steps| - 1])
  }

  predicate TimelyRun(env: Env, s: Store, steps: seq<Step>) {
    steps == [] || (TimelyRun(env, s, steps[..|steps| - 1])
                    && Timely(Run(env, s, steps[..|steps| - 1]).clock, steps[|steps| - 1]))
  }

  predicate Holds(env: Env, content: Content, m: Bindings) {
    content == Snapshot(m) || Read(env, content).Err?
  }

  /** The two files against the committed map: a backup no newer than the primary equals it. */
  ghost predicate FilesAgree(env: Env, s: Store) {
    && (s.disk.primary.Some? <==> s.committed.Some?)
    && (s.memory.Some? ==> s.memory.value == Committed(s))
    && (s.disk.primary.Some? ==>
          && s.disk.primary.value.mtime <= s.clock
          && Holds(env, s.disk.primary.value.content, Committed(s))
          && (s.settled <==> s.disk.backup.Some? && s.disk.backup.value.mtime <= s.disk.primary.value.mtime))
    && (s.disk.backup.Some? ==> s.disk.backup.value.mtime <= s.clock)
    && (s.disk.primary.Some? && s.settled ==> Holds(env, s.disk.backup.value.content, Committed(s)))
  }

  ghost predicate Consistent(env: Env, s: Store) {
    FilesAgree(env, s) && WellFormedMap(env, Committed(s))
  }

  predicate PrimaryReadable(env: Env, s: Store) {
    s.disk.primary.Some? && Read(env, s.disk.primary.value.content).Ok?
  }

  predicate BackupReadable(env: Env, s: Store) {
    s.disk.backup.Some? && Read(env, s.disk.backup.value.content).Ok?
  }

  lemma PersistKeepsConsistent(env: Env, s: Store, next: Bindings, w: Writes)
    requires env.al.Lawful() && Consistent(env, s) && Strict(s.clock, w)
    requires s.memory.Some? && WellFormedMap(env, next)
    ensures var (disk, reply) := Persisted(s.disk, next, s.memory.value, w);
            Consistent(env, AfterPersist(s, disk, if reply.Done? then next else s.memory.value, reply, w))
  {
  }

  /** What a load does to files that agree with a committed map that reads back. */
  lemma LoadOnAgreeingFiles(env: Env, s: Store, w: Write)
    requires FilesAgree(env, s) && Read(env, Snapshot(Committed(s))) == Ok(Committed(s))
    ensures var (disk, reply) := Recovered(env, s.disk, w);
            && (reply.Loaded? ==> reply.bindings == Committed(s))
            && (reply.Loaded? <==>
                  || s.committed.None?
                  || PrimaryReadable(env, s)
                  || (s.settled && BackupReadable(env, s) && w.io.Completes?))
            && (s.clock < w.at ==> FilesAgree(env, Exec(env, s, Load(w))))
  {
  }

  lemma PutKeepsConsistent(env: Env, s: Store, b: Result<Binding, ValueError>, w: Writes)
    requires env.al.Lawful() && Consistent(env, s) && Strict(s.clock, w)
    requires b.Ok? ==> WellFormed(env, b.value)
    ensures Consistent(env, ExecPut(s, b, w))
  {
    if s.memory.Some? && b.Ok? {
      PersistKeepsConsistent(env, s, s.memory.value[b.value.groupId := b.value], w);
    }
  }

  lemma RemoveKeepsConsistent(env: Env, s: Store, g: string, w: Writes)
    requires env.al.Lawful() && Consistent(env, s) && Strict(s.clock, w)
    ensures Consistent(env, Exec(env, s, Remove(g, w)))
  {
    if s.memory.Some? && g in s.memory.value {
      PersistKeepsConsistent(env, s, s.memory.value - {g}, w);
    }
  }

  lemma StepKeepsConsistent(env: Env, s: Store, step: Step)
    requires env.al.Lawful() && Consistent(env, s) && Timely(s.clock, step)
    ensures Consistent(env, Exec(env, s, step))
  {
    match step
    case Load(w) =>
      SnapshotRoundTrip(env, Committed(s));
      LoadOnAgreeingFiles(env, s, w);
    case Put(g, m, u, now, name, w) =>
      var data := BindingDict(g, m, u, now, name);
      var b := FromDict(env, data);
      if b.Ok? {
        FromDictNormalises(env, data, b.value);
      }
      PutKeepsConsistent(env, s, b, w);
    case Remove(g, w) =>
      RemoveKeepsConsistent(env, s, g, w);
    case _ =>
  }

  lemma {:induction false} RunKeepsConsistent(env: Env, steps: seq<Step>)
    requires env.al.Lawful() && TimelyRun(env, FRESH, steps)
    ensures Consistent(env, Run(env, FRESH, steps))
  {
    if steps != [] {
      RunKeepsConsistent(env, steps[..|steps| - 1]);
      StepKeepsConsistent(env, Run(env, FRESH, steps[..|steps| - 1]), steps[|steps| - 1]);
    }
  }

  /** Every load of these files returns the map and leaves them as they are. */
  ghost predicate ReadsBack(env: Env, d: Disk, m: Bindings) {
    forall w: Write :: Recovered(env, d, w) == (d, Loaded(m))
  }

  /** Both files are written. */
  predicate AreWritten(w: Writes) {
    w.backup.io.Completes? && w.primary.io.Completes?
  }

  /** A persist is done exactly when both files are written; then a load returns the new map, and else
      the primary is what it was. */
  lemma PersistIsDoneExactly(env: Env, d: Disk, next: Bindings, previous: Bindings, w: Writes)
    ensures var (disk, reply) := Persisted(d, next, previous, w);
            && (reply.Done? <==> AreWritten(w)) && !reply.Rejected?
            && (!reply.Done? ==> disk.primary == d.primary)
            && (reply.Done? && env.al.Lawful() && WellFormedMap(env, next) ==> ReadsBack(env, disk, next))
  {
    SnapshotReads(env, next);
    hide WellFormedMap, Read, Snapshot;
  }

  lemma SnapshotReads(env: Env, m: Bindings)
    ensures env.al.Lawful() && WellFormedMap(env, m) ==> Read(env, Snapshot(m)) == Ok(m)
  {
    if env.al.Lawful() {
      SnapshotRoundTrip(env, m);
    }
    hide WellFormedMap, Read;
  }

  lemma PutIsExact(env: Env, d: Disk, m: Bindings, b: Result<Binding, ValueError>, w: Writes)
    ensures var (d', m', reply) := AfterPut(d, m, b, w);
            && (reply.Rejected? <==> b.Err?) && (reply.Done? <==> b.Ok? && AreWritten(w))
            && (reply.Done? ==> reply.binding == Some(b.value) && m' == m[b.value.groupId := b.value])
            && (reply.Done? && env.al.Lawful() && WellFormedMap(env, m) && WellFormed(env, b.value) ==> ReadsBack(env, d', m'))
            && (!reply.Done? ==> m' == m && d'.primary == d.primary)
  {
    hide Persisted, WellFormed, ReadsBack;
    if b.Ok? {
      PersistIsDoneExactly(env, d, m[b.value.groupId := b.value], m, w);
    }
  }

  lemma RemoveIsExact(env: Env, d: Disk, m: Bindings, groupId: string, w: Writes)
    ensures var (d', m', reply) := AfterRemove(d, m, groupId, w);
            && (reply.Done? <==> groupId !in m || AreWritten(w))
            && (groupId !in m ==> reply == Done(None) && m' == m && d' == d)
            && (groupId in m && reply.Done? ==> reply.binding == Some(m[groupId]) && m' == m - {groupId})
            && (groupId in m && reply.Done? && env.al.Lawful() && WellFormedMap(env, m) ==> ReadsBack(env, d', m'))
            && (!reply.Done? ==> m' == m && d'.primary == d.primary)
  {
    hide Persisted, WellFormed, ReadsBack;
    if groupId in m {
      PersistIsDoneExactly(env, d, m - {groupId}, m, w);
    }
  }

  /** The store object: its dictionary, and the two files it owns.  Its ghost fields are the rest of
      the state that the runs above are about, so each call is a step of such a run. */
  class JsonBindingStore {
    const env: Env
    var disk: Disk
    var bindings: Bindings
    ghost var loaded: bool
    ghost var committed: Option<Bindings>
    ghost var settled: bool
    ghost var clock: nat

    ghost function State(): Store
      reads this
    {
      Store(disk, if loaded then Some(bindings) else None, committed, settled, clock)
    }

    /** The files agree with the committed map, and the dictionary of a loaded store is that map. */
    ghost predicate Valid()
      reads this
    {
      env.al.Lawful() && Consistent(env, State())
    }

    /** A new process over the files that earlier ones left. */
    constructor (env: Env, disk: Disk, ghost left: Store)
      requires env.al.Lawful() && Consistent(env, left) && left.disk == disk && left.memory.None?
      ensures Valid() && this.env == env && State() == left && bindings == map[]
    {
      this.env, this.disk, bindings := env, disk, map[];
      loaded, committed, settled, clock := false, left.committed, left.settled, left.clock;
    }

    method PersistSnapshot(next: Bindings, previous: Bindings, w: Writes) returns (reply: Reply)
      modifies this`disk
      ensures (disk, reply) == Persisted(old(disk), next, previous, w)
    {
      var primaryExisted := disk.primary.Some?;
      if !w.backup.io.Completes? {
        return Ended(w.backup.io);
      }
      disk := disk.(backup := Some(File(Snapshot(next), w.backup.at)));
      if w.primary.io.Raises? {
        if w.rollback.io.Crashes? {
          return Died;
        }
        if w.rollback.io.Completes? {
          if primaryExisted {
            disk := disk.(backup := Some(File(Snapshot(previous), w.rollback.at)));
          } else {
            disk := disk.(backup := None);
          }
        }
        return Failed;
      }
      if w.primary.io.Completes? {
        disk := disk.(primary := Some(File(Snapshot(next), w.primary.at)));
      }
      return Ended(w.primary.io);
    }

    method LoadWithRecovery(w: Write) returns (reply: LoadReply)
      modifies this`disk
      ensures (disk, reply) == Recovered(env, old(disk), w)
    {
      if disk.primary.None? {
        return Loaded(map[]);
      }
      var fromPrimary := ReadSnapshot(env, disk.primary.value.content);
      if fromPrimary.Ok? {
        return Loaded(fromPrimary.value);
      }
      if disk.backup.None? || disk.backup.value.mtime > disk.primary.value.mtime {
        return Refused;
      }
      var fromBackup := ReadSnapshot(env, disk.backup.value.content);
      if fromBackup.Err? {
        return Refused;
      }
      if w.io.Completes? {
        disk := disk.(primary := Some(File(Snapshot(fromBackup.value), w.at)));
        return Loaded(fromBackup.value);
      }
      return if w.io.Raises? then LoadFailed else LoadDied;
    }

    method Load(w: Write) returns (reply: LoadReply)
      modifies this
      ensures (disk, reply) == Recovered(env, old(disk), w)
      ensures bindings == if reply.Loaded? then reply.bindings else old(bindings)
      ensures State() == Exec(env, old(State()), Step.Load(w))
      ensures old(Valid()) && old(clock) < w.at ==> Valid() && (reply.Loaded? ==> bindings == Committed(State()))
    {
      ghost var before := State();
      if Valid() && clock < w.at {
        StepKeepsConsistent(env, before, Step.Load(w));
        SnapshotRoundTrip(env, Committed(before));
        LoadOnAgreeingFiles(env, before, w);
      }
      hide Consistent, Read;
      reply := LoadWithRecovery(w);
      if reply.Loaded? {
        bindings := reply.bindings;
      }
      loaded, clock := reply.Loaded?, w.at;
    }

    method Put(groupId: string, memberId: string, boundBy: string, now: string, memberName: string, w: Writes)
      returns (reply: Reply)
      modifies this
      ensures (disk, bindings, reply)
           == AfterPut(old(disk), old(bindings), FromDict(env, BindingDict(groupId, memberId, boundBy, now, memberName)), w)
      ensures old(loaded) ==> State() == Exec(env, old(State()), Step.Put(groupId, memberId, boundBy, now, memberName, w))
      ensures old(Valid()) && old(loaded) && Strict(old(clock), w) ==> Valid()
      ensures var b := FromDict(env, BindingDict(groupId, memberId, boundBy, now, memberName));
              && (reply.Rejected? <==> b.Err?) && (reply.Done? <==> b.Ok? && AreWritten(w))
              && (reply.Done? ==> reply.binding == Some(b.value) && bindings == old(bindings)[b.value.groupId := b.value])
      ensures reply.Done? && env.al.Lawful() && WellFormedMap(env, old(bindings)) ==> ReadsBack(env, disk, bindings)
      ensures !reply.Done? ==> bindings == old(bindings) && disk.primary == old(disk.primary)
    {
      hide Consistent, FromDict, Persisted, WellFormed, WellFormedMap, ReadsBack, BindingDict;
      if Valid() && Strict(clock, w) {
        StepKeepsConsistent(env, State(), Step.Put(groupId, memberId, boundBy, now, memberName, w));
      }
      PutIsExact(env, disk, bindings, FromDict(env, BindingDict(groupId, memberId, boundBy, now, memberName)), w);
      if env.al.Lawful() && FromDict(env, BindingDict(groupId, memberId, boundBy, now, memberName)).Ok? {
        FromDictNormalises(env, BindingDict(groupId, memberId, boundBy, now, memberName),
                           FromDict(env, BindingDict(groupId, memberId, boundBy, now, memberName)).value);
      }
      var binding := FromDict(env, BindingDict(groupId, memberId, boundBy, now, memberName));
      if binding.Err? {
        clock := w.rollback.at;
        return Rejected;
      }
      var next := bindings[binding.value.groupId := binding.value];
      reply := PersistSnapshot(next, bindings, w);
      Record(next, reply, w);
      if reply.Done? {
        bindings := next;
        reply := Done(Some(binding.value));
      }
    }

    method Remove(groupId: string, w: Writes) returns (reply: Reply)
      modifies this
      ensures (disk, bindings, reply) == AfterRemove(old(disk), old(bindings), groupId, w)
      ensures old(loaded) ==> State() == Exec(env, old(State()), Step.Remove(groupId, w))
      ensures old(Valid()) && old(loaded) && Strict(old(clock), w) ==> Valid()
      ensures reply.Done? <==> groupId !in old(bindings) || AreWritten(w)
      ensures groupId !in old(bindings) ==> reply == Done(None) && bindings == old(bindings) && disk == old(disk)
      ensures groupId in old(bindings) && reply.Done? ==>
                reply.binding == Some(old(bindings)[groupId]) && bindings == old(bindings) - {groupId}
      ensures groupId in old(bindings) && reply.Done? && env.al.Lawful() && WellFormedMap(env, old(bindings)) ==>
                ReadsBack(env, disk, bindings)
      ensures !reply.Done? ==> bindings == old(bindings) && disk.primary == old(disk.primary)
    {
      hide Consistent, Persisted, WellFormedMap, ReadsBack;
      RemoveIsExact(env, disk, bindings, groupId, w);
      if Valid() && Strict(clock, w) {
        StepKeepsConsistent(env, State(), Step.Remove(groupId, w));
      }
      if groupId !in bindings {
        clock := w.rollback.at;
        return Done(None);
      }
      var binding := bindings[groupId];
      var next := bindings - {groupId};
      reply := PersistSnapshot(next, bindings, w);
      Record(next, reply, w);
      if reply.Done? {
        bindings := next;
        reply := Done(Some(binding));
      }
    }

    ghost method Record(next: Bindings, reply: Reply, w: Writes)
      modifies this`loaded, this`committed, this`settled, this`clock
      ensures loaded == (old(loaded) && !reply.Died?) && clock == w.rollback.at
      ensures committed == if reply.Done? then Some(next) else old(committed)
      ensures settled == if reply.Done? then true else old(settled) && !w.backup.io.Completes?
    {
      loaded, clock := loaded && !reply.Died?, w.rollback.at;
      settled := if reply.Done? then true else settled && !w.backup.io.Completes?;
      committed := if reply.Done? then Some(next) else committed;
    }
  }

  /** Crash safety.  After any run, a load returns the map last moved into the primary or
      nothing; and it returns it exactly when the primary is readable, or when the last persist
      completed, the backup is readable and the repairing write goes through. */
  lemma LoadReturnsCommitted(env: Env, steps: seq<Step>, w: Write)
    requires env.al.Lawful() && TimelyRun(env, FRESH, steps)
    ensures var s := Run(env, FRESH, steps);
            var reply := Recovered(env, s.disk, w).1;
            && (reply.Loaded? ==> reply.bindings == Committed(s))
            && (reply.Loaded? <==>
                  || s.committed.None?
                  || PrimaryReadable(env, s)
                  || (s.settled && BackupReadable(env, s) && w.io.Completes?))
  {
    RunKeepsConsistent(env, steps);
    SnapshotRoundTrip(env, Committed(Run(env, FRESH, steps)));
    LoadOnAgreeingFiles(env, Run(env, FRESH, steps), w);
  }

  /** Whenever the store is loaded, a fresh load of a readable primary yields its memory. */
  lemma FreshLoadAgreesWithMemory(env: Env, steps: seq<Step>, w: Write)
    requires env.al.Lawful() && TimelyRun(env, FRESH, steps)
    requires var s := Run(env, FRESH, steps);
             s.memory.Some? && (s.disk.primary.None? || PrimaryReadable(env, s))
    ensures var s := Run(env, FRESH, steps);
            Recovered(env, s.disk, w) == (s.disk, Loaded(s.memory.value))
  {
    LoadReturnsCommitted(env, steps, w);
    RunKeepsConsistent(env, steps);
  }

  // ---- Whatever the file times are ----

  /** The primary has never been damaged, and the map in it is the one in memory. */
  ghost predicate Steady(env: Env, s: Store) {
    && (s.disk.primary.Some? <==> s.committed.Some?)
    && (s.disk.primary.Some? ==> s.disk.primary.value.content == Snapshot(Committed(s)))
    && (s.memory.Some? ==> s.memory.value == Committed(s))
    && WellFormedMap(env, Committed(s))
  }

  lemma PersistKeepsSteady(env: Env, s: Store, next: Bindings, w: Writes)
    requires Steady(env, s) && s.memory.Some? && WellFormedMap(env, next)
    ensures var (disk, reply) := Persisted(s.disk, next, s.memory.value, w);
            Steady(env, AfterPersist(s, disk, if reply.Done? then next else s.memory.value, reply, w))
  {
  }

  lemma PutKeepsSteady(env: Env, s: Store, b: Result<Binding, ValueError>, w: Writes)
    requires Steady(env, s) && (b.Ok? ==> WellFormed(env, b.value))
    ensures Steady(env, ExecPut(s, b, w))
  {
    hide WellFormed, Persisted;
    if b.Ok? && s.memory.Some? {
      PersistKeepsSteady(env, s, s.memory.value[b.value.groupId := b.value], w);
    }
  }

  lemma StepKeepsSteady(env: Env, s: Store, step: Step)
    requires env.al.Lawful() && Steady(env, s) && !step.DamagePrimary?
    ensures Steady(env, Exec(env, s, step))
  {
    match step
    case Load(w) =>
      SnapshotRoundTrip(env, Committed(s));
    case Put(g, m, u, now, name, w) =>
      var data := BindingDict(g, m, u, now, name);
      var b := FromDict(env, data);
      if b.Ok? {
        FromDictNormalises(env, data, b.value);
      }
      PutKeepsSteady(env, s, b, w);
    case Remove(g, w) =>
      if s.memory.Some? && g in s.memory.value {
        PersistKeepsSteady(env, s, s.memory.value - {g}, w);
      }
    case _ =>
  }

  lemma {:induction false} RunKeepsSteady(env: Env, steps: seq<Step>)
    requires env.al.Lawful() && forall i | 0 <= i < |steps| :: !steps[i].DamagePrimary?
    ensures Steady(env, Run(env, FRESH, steps))
  {
    if steps != [] {
      RunKeepsSteady(env, steps[..|steps| - 1]);
      StepKeepsSteady(env, Run(env, FRESH, steps[..|steps| - 1]), steps[|steps| - 1]);
    }
  }

  /** While the primary is not damaged the file times do not matter: after any run, a fresh load
      succeeds, changes no file, and yields the committed map, which is also the one in memory. */
  lemma UndamagedStoreAgreesWithMemory(env: Env, steps: seq<Step>, w: Write)
    requires env.al.Lawful() && forall i | 0 <= i < |steps| :: !steps[i].DamagePrimary?
    ensures var s := Run(env, FRESH, steps);
            && Recovered(env, s.disk, w) == (s.disk, Loaded(Committed(s)))
            && (s.memory.Some? ==> s.memory.value == Committed(s))
  {
    RunKeepsSteady(env, steps);
    SnapshotRoundTrip(env, Committed(Run(env, FRESH, steps)));
  }

  /** A persist that had to roll back leaves the newer backup behind: until the next completed
      persist, a damaged primary is refused rather than repaired. */
  lemma RolledBackPersistRefusesRecovery(env: Env, steps: seq<Step>, w: Write)
    requires env.al.Lawful() && TimelyRun(env, FRESH, steps)
    requires var s := Run(env, FRESH, steps);
             s.committed.Some? && !s.settled && !PrimaryReadable(env, s)
    ensures Recovered(env, Run(env, FRESH, steps).disk, w).1 == Refused
  {
    RunKeepsConsistent(env, steps);
  }

  /** A persist that wrote its backup and never the primary: it crashed in between, or the primary
      write raised and the rollback did not complete. */
  predicate LeavesNewBackup(w: Writes) {
    w.backup.io.Completes? && (w.primary.io.Crashes? || (w.primary.io.Raises? && !w.rollback.io.Completes?))
  }

  /** Exactly when an uncommitted map comes back: after such a persist over an existing primary that
      becomes unreadable, the next load returns the new map if its backup is not newer than the
      primary, and refuses if it is. */
  lemma UncommittedBackupRevivedExactly(env: Env, d: Disk, next: Bindings, previous: Bindings, w: Writes, damage: Content, r: Write)
    requires env.al.Lawful() && WellFormedMap(env, next) && d.primary.Some? && LeavesNewBackup(w)
    requires Read(env, damage).Err? && r.io.Completes?
    ensures var left := Persisted(d, next, previous, w).0;
            var reply := Recovered(env, left.(primary := Some(left.primary.value.(content := damage))), r).1;
            && (reply == Loaded(next) <==> w.backup.at <= d.primary.value.mtime)
            && (reply == Refused <==> w.backup.at > d.primary.value.mtime)
  {
    SnapshotRoundTrip(env, next);
  }

  /** When the rollback completes it is the previous map that comes back, under the same condition
      on the time of the rollback. */
  lemma RolledBackBackupRevivedExactly(env: Env, d: Disk, next: Bindings, previous: Bindings, w: Writes, damage: Content, r: Write)
    requires env.al.Lawful() && WellFormedMap(env, previous) && d.primary.Some?
    requires w.backup.io.Completes? && w.primary.io.Raises? && w.rollback.io.Completes?
    requires Read(env, damage).Err? && r.io.Completes?
    ensures var left := Persisted(d, next, previous, w).0;
            var reply := Recovered(env, left.(primary := Some(left.primary.value.(content := damage))), r).1;
            && (reply == Loaded(previous) <==> w.rollback.at <= d.primary.value.mtime)
            && (reply == Refused <==> w.rollback.at > d.primary.value.mtime)
  {
    SnapshotRoundTrip(env, previous);
  }

  /** An instance from an empty primary: with equal file times the backup of a persist that crashed
      before its primary write passes for the committed one. */
  lemma EqualTimesReviveUncommittedBackup(env: Env, b: Binding, t: nat)
    requires env.al.Lawful() && WellFormed(env, b)
    ensures var w := Writes(Write(Completes, t), Write(Crashes, t), Write(Crashes, t));
            var before := Disk(Some(File(Snapshot(map[]), t)), None);
            var crashed := Persisted(before, map[b.groupId := b], map[], w).0;
            var damaged := crashed.(primary := Some(File(Garbage, t)));
            Recovered(env, damaged, Write(Completes, t + 1)).1 == Loaded(map[b.groupId := b])
  {
    SnapshotRoundTrip(env, map[b.groupId := b]);
  }
}
