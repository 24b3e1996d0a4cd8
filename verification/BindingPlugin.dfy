/** The service on top of its store, over all lives of the process: the changes that were committed,
    replayed from the empty map, give the map that the next load returns. */
module BindingPlugin {
  import opened Wrappers
  import opened BindingState
  import opened BindingService
  import BindingStore

  /** `past` are the changes committed by earlier lives of the process.  The service runs while the
      store is loaded. */
  datatype Plugin = Plugin(store: BindingStore.Store, service: Service, past: seq<Event>) {
    predicate Runs() {
      store.memory.Some?
    }

    /** Every change that was ever committed. */
    function Log(): seq<Event> {
      past + service.history
    }
  }

  /** What the service does is as before, except that a persist is one of the store. */
  datatype Action =
    | Starts(recovery: BindingStore.Write)
    | Serves(step: Step)
    | Persists(tid: nat, writes: BindingStore.Writes)
    | Exits
    | DamagesPrimary(content: Content)
    | DamagesBackup(content: Content)

  const INSTALLED := Plugin(BindingStore.FRESH, Start(map[]), [])

  function Stopped(p: Plugin, store: BindingStore.Store): Plugin {
    Plugin(store, Start(map[]), p.Log())
  }

  predicate CanPersist(p: Plugin, tid: nat) {
    p.Runs() && tid in p.service.calls && p.service.calls[tid].place.Persisting?
  }

  function Next(p: Plugin, tid: nat): Bindings
    requires CanPersist(p, tid)
  {
    p.service.calls[tid].place.next
  }

  /** The store after a persist of the map that a call has prepared. */
  function StoreAfter(p: Plugin, tid: nat, w: BindingStore.Writes): (BindingStore.Store, BindingStore.Reply)
    requires CanPersist(p, tid)
  {
    var (disk, reply) := BindingStore.Persisted(p.store.disk, Next(p, tid), p.service.bindings, w);
    (BindingStore.AfterPersist(p.store, disk, if reply.Done? then Next(p, tid) else p.service.bindings, reply, w), reply)
  }

  function Perform(w: World, p: Plugin, action: Action): Plugin {
    match action
    case Starts(recovery) =>
      if p.Runs() then p
      else
        var store := BindingStore.Exec(w.state, p.store, BindingStore.Load(recovery));
        if store.memory.Some? then Plugin(store, Start(store.memory.value), p.Log()) else p.(store := store)
    case Serves(step) =>
      if p.Runs() && !step.PersistEnds? then p.(service := Exec(w, p.service, step)) else p
    case Persists(tid, writes) =>
      if !CanPersist(p, tid) then p
      else
        var (store, reply) := StoreAfter(p, tid, writes);
        if reply.Died? then Stopped(p, store)
        else p.(store := store, service := Exec(w, p.service, PersistEnds(tid, reply.Done?)))
    case Exits => Stopped(p, BindingStore.Exec(w.state, p.store, BindingStore.Exit))
    case DamagesPrimary(content) => p.(store := BindingStore.Exec(w.state, p.store, BindingStore.DamagePrimary(content)))
    case DamagesBackup(content) => p.(store := BindingStore.Exec(w.state, p.store, BindingStore.DamageBackup(content)))
  }

  function After(w: World, actions: seq<Action>): Plugin {
    if actions == [] then INSTALLED else Perform(w, After(w, actions[..|actions| - 1]), actions[|actions| - 1])
  }

  // ---- Only normalised bindings are persisted ----

  ghost predicate PlaceFormed(w: World, place: Place) {
    match place
    case Putting(b) => WellFormed(w.state, b)
    case Persisting(next, _) => WellFormedMap(w.state, next)
    case _ => true
  }

  ghost predicate Formed(w: World, s: Service) {
    WellFormedMap(w.state, s.bindings) && forall t | t in s.calls :: PlaceFormed(w, s.calls[t].place)
  }

  lemma VerdictIsFormed(w: World, c: Call, reply: GatewayReply, now: string)
    requires w.state.al.Lawful()
    ensures var b := Verdict(w, c, reply, now); b.Some? ==> WellFormed(w.state, b.value)
  {
    var name := if reply.Verified? && reply.memberName.Str? then reply.memberName.s else "";
    if c.command.Bind? {
      var data := BindingStore.BindingDict(c.groupId, c.command.memberId, c.userId, now, name);
      var b := FromDict(w.state, data);
      if b.Ok? {
        FromDictNormalises(w.state, data, b.value);
      }
    }
    hide FromDict, WellFormed;
  }

  lemma StepKeepsFormed(w: World, s: Service, step: Step)
    requires w.state.al.Lawful() && Formed(w, s)
    ensures Formed(w, Exec(w, s, step))
  {
    hide WellFormed, Verdict, AfterGateway, AfterStoreLock;
    if step.tid in s.calls {
      if step.GatewayAnswers? {
        GatewayKeepsFormed(w, s, step.tid, step.reply, step.now);
      } else if step.TakeStoreLock? {
        StoreLockKeepsFormed(w, s, step.tid);
      }
    }
  }

  lemma GatewayKeepsFormed(w: World, s: Service, tid: nat, reply: GatewayReply, now: string)
    requires w.state.al.Lawful() && Formed(w, s) && tid in s.calls
    ensures Formed(w, AfterGateway(w, s, tid, reply, now))
  {
    hide WellFormed, Verdict;
    VerdictIsFormed(w, s.calls[tid], reply, now);
  }

  lemma StoreLockKeepsFormed(w: World, s: Service, tid: nat)
    requires Formed(w, s) && tid in s.calls
    ensures Formed(w, AfterStoreLock(w, s, tid))
  {
    hide WellFormed;
    assert PlaceFormed(w, s.calls[tid].place);
  }

  // ---- The service and its store agree ----

  /** The committed changes are legal and leave the committed map, which is also the one in memory. */
  ghost predicate Linked(w: World, p: Plugin) {
    && Replay(map[], p.past).Some?
    && Replay(map[], p.Log()) == Some(BindingStore.Committed(p.store))
    && (if p.Runs() then
          p.store.memory.value == p.service.bindings && Formed(w, p.service)
          && Consistent(w, Replay(map[], p.past).value, p.service)
        else p.service.history == [])
  }

  lemma {:induction false} ReplayAppends(m: Bindings, a: seq<Event>, b: seq<Event>)
    requires Replay(m, a).Some?
    ensures Replay(m, a + b) == Replay(Replay(m, a).value, b)
  {
    if b == [] {
      assert a + b == a;
    } else {
      ReplayAppends(m, a, b[..|b| - 1]);
      assert (a + b)[..|a + b| - 1] == a + b[..|b| - 1];
    }
  }

  /** What a load of this store must be like for the two to agree afterwards. */
  ghost predicate LoadsCommitted(w: World, p: Plugin, recovery: BindingStore.Write) {
    var reply := BindingStore.Recovered(w.state, p.store.disk, recovery).1;
    reply.Loaded? ==> reply.bindings == BindingStore.Committed(p.store) && WellFormedMap(w.state, reply.bindings)
  }

  lemma StartKeepsLinked(w: World, p: Plugin, recovery: BindingStore.Write)
    requires Linked(w, p) && LoadsCommitted(w, p, recovery)
    ensures Linked(w, Perform(w, p, Starts(recovery)))
  {
    hide Replay, WellFormedMap, BindingStore.Recovered;
    if !p.Runs() {
      assert p.past + [] == p.past && p.Log() + [] == p.Log();
      StartIsConsistent(w, BindingStore.Committed(p.store));
    }
  }

  lemma StartIsConsistent(w: World, m: Bindings)
    ensures Consistent(w, m, Start(m))
  {
  }

  lemma ServiceStepKeepsLinked(w: World, p: Plugin, step: Step)
    requires w.state.al.Lawful() && Linked(w, p) && !step.PersistEnds?
    ensures Linked(w, Perform(w, p, Serves(step)))
  {
    hide Replay, Formed, Consistent, Exec;
    if p.Runs() {
      StepKeepsFormed(w, p.service, step);
      StepKeepsConsistent(w, Replay(map[], p.past).value, p.service, step);
      NothingCommitted(w, p.service, step);
    }
  }

  lemma NothingCommitted(w: World, s: Service, step: Step)
    requires !step.PersistEnds?
    ensures Exec(w, s, step).history == s.history && Exec(w, s, step).bindings == s.bindings
  {
    hide Verdict;
  }

  lemma PersistKeepsLinked(w: World, p: Plugin, tid: nat, writes: BindingStore.Writes)
    requires w.state.al.Lawful() && Linked(w, p)
    ensures Linked(w, Perform(w, p, Persists(tid, writes)))
  {
    hide Replay, Formed, Consistent, Exec, BindingStore.Persisted;
    if CanPersist(p, tid) {
      var (store, reply) := StoreAfter(p, tid, writes);
      var ends := PersistEnds(tid, reply.Done?);
      var init := Replay(map[], p.past).value;
      StepKeepsFormed(w, p.service, ends);
      StepKeepsConsistent(w, init, p.service, ends);
      PersistCommits(w, p.service, tid, reply.Done?);
      ConsistentReplays(w, init, Exec(w, p.service, ends));
      ReplayAppends(map[], p.past, Exec(w, p.service, ends).history);
      assert p.Log() + [] == p.Log();
    }
  }

  lemma PersistCommits(w: World, s: Service, tid: nat, written: bool)
    requires tid in s.calls && s.calls[tid].place.Persisting?
    ensures var s' := Exec(w, s, PersistEnds(tid, written));
            if written then s'.bindings == s.calls[tid].place.next && s'.history == s.history + [s.calls[tid].place.event]
            else s'.bindings == s.bindings && s'.history == s.history
  {
  }

  lemma ConsistentReplays(w: World, init: Bindings, s: Service)
    requires Consistent(w, init, s)
    ensures Replay(init, s.history) == Some(s.bindings)
  {
  }

  lemma ActionKeepsLinked(w: World, p: Plugin, action: Action)
    requires w.state.al.Lawful() && Linked(w, p) && (action.Starts? ==> LoadsCommitted(w, p, action.recovery))
    ensures Linked(w, Perform(w, p, action))
  {
    match action {
      case Starts(recovery) => StartKeepsLinked(w, p, recovery);
      case Serves(step) =>
        if !step.PersistEnds? {
          ServiceStepKeepsLinked(w, p, step);
        }
      case Persists(tid, writes) => PersistKeepsLinked(w, p, tid, writes);
      case Exits =>
        hide Replay, Formed, Consistent;
        assert p.Log() + [] == p.Log();
      case _ =>
    }
  }

  // ---- While the primary is not damaged ----

  lemma ActionKeepsSteady(w: World, p: Plugin, action: Action)
    requires w.state.al.Lawful() && Linked(w, p) && BindingStore.Steady(w.state, p.store) && !action.DamagesPrimary?
    ensures BindingStore.Steady(w.state, Perform(w, p, action).store)
  {
    hide BindingStore.Steady, BindingStore.Exec, Exec, Replay, Consistent;
    match action
    case Starts(recovery) => BindingStore.StepKeepsSteady(w.state, p.store, BindingStore.Load(recovery));
    case Persists(tid, writes) =>
      if CanPersist(p, tid) {
        BindingStore.PersistKeepsSteady(w.state, p.store, Next(p, tid), writes);
      }
    case Exits => BindingStore.StepKeepsSteady(w.state, p.store, BindingStore.Exit);
    case DamagesBackup(content) => BindingStore.StepKeepsSteady(w.state, p.store, BindingStore.DamageBackup(content));
    case Serves(_) =>
  }

  lemma SteadyLoadsCommitted(w: World, p: Plugin, recovery: BindingStore.Write)
    requires w.state.al.Lawful() && BindingStore.Steady(w.state, p.store)
    ensures LoadsCommitted(w, p, recovery)
    ensures BindingStore.Recovered(w.state, p.store.disk, recovery)
         == (p.store.disk, BindingStore.Loaded(BindingStore.Committed(p.store)))
  {
    SnapshotRoundTrip(w.state, BindingStore.Committed(p.store));
    hide WellFormedMap, Read;
  }

  lemma {:induction false} RunKeepsSteady(w: World, actions: seq<Action>)
    requires w.state.al.Lawful() && forall i | 0 <= i < |actions| :: !actions[i].DamagesPrimary?
    ensures Linked(w, After(w, actions)) && BindingStore.Steady(w.state, After(w, actions).store)
  {
    hide Linked, BindingStore.Steady, Perform, LoadsCommitted;
    if actions == [] {
      InstalledIsLinked(w);
    } else {
      var init, last := actions[..|actions| - 1], actions[|actions| - 1];
      RunKeepsSteady(w, init);
      if last.Starts? {
        SteadyLoadsCommitted(w, After(w, init), last.recovery);
      }
      ActionKeepsLinked(w, After(w, init), last);
      ActionKeepsSteady(w, After(w, init), last);
    }
  }

  lemma InstalledIsLinked(w: World)
    ensures Linked(w, INSTALLED) && BindingStore.Steady(w.state, INSTALLED.store) && BindingStore.Consistent(w.state, INSTALLED.store)
  {
  }

  // ---- With damage, while the file clock advances ----

  predicate Timely(p: Plugin, action: Action) {
    match action
    case Starts(recovery) => p.store.clock < recovery.at
    case Persists(_, writes) => BindingStore.Strict(p.store.clock, writes)
    case _ => true
  }

  predicate TimelyRun(w: World, actions: seq<Action>) {
    actions == [] || (TimelyRun(w, actions[..|actions| - 1]) && Timely(After(w, actions[..|actions| - 1]), actions[|actions| - 1]))
  }

  lemma ActionKeepsConsistent(w: World, p: Plugin, action: Action)
    requires w.state.al.Lawful() && Linked(w, p) && BindingStore.Consistent(w.state, p.store) && Timely(p, action)
    ensures BindingStore.Consistent(w.state, Perform(w, p, action).store)
  {
    hide BindingStore.Consistent, BindingStore.Exec, Exec, Replay, Consistent;
    match action
    case Starts(recovery) => BindingStore.StepKeepsConsistent(w.state, p.store, BindingStore.Load(recovery));
    case Persists(tid, writes) =>
      if CanPersist(p, tid) {
        BindingStore.PersistKeepsConsistent(w.state, p.store, Next(p, tid), writes);
      }
    case Exits => BindingStore.StepKeepsConsistent(w.state, p.store, BindingStore.Exit);
    case DamagesPrimary(content) => BindingStore.StepKeepsConsistent(w.state, p.store, BindingStore.DamagePrimary(content));
    case DamagesBackup(content) => BindingStore.StepKeepsConsistent(w.state, p.store, BindingStore.DamageBackup(content));
    case Serves(_) =>
  }

  /** When a load returns at all. */
  predicate Loadable(w: World, s: BindingStore.Store, recovery: BindingStore.Write) {
    || s.committed.None? || BindingStore.PrimaryReadable(w.state, s)
    || (s.settled && BindingStore.BackupReadable(w.state, s) && recovery.io.Completes?)
  }

  lemma ConsistentLoadsCommitted(w: World, p: Plugin, recovery: BindingStore.Write)
    requires w.state.al.Lawful() && BindingStore.Consistent(w.state, p.store)
    ensures LoadsCommitted(w, p, recovery)
    ensures BindingStore.Recovered(w.state, p.store.disk, recovery).1.Loaded? <==> Loadable(w, p.store, recovery)
  {
    SnapshotRoundTrip(w.state, BindingStore.Committed(p.store));
    BindingStore.LoadOnAgreeingFiles(w.state, p.store, recovery);
    hide WellFormedMap, Read, BindingStore.Recovered, BindingStore.FilesAgree;
  }

  lemma {:induction false} RunKeepsConsistent(w: World, actions: seq<Action>)
    requires w.state.al.Lawful() && TimelyRun(w, actions)
    ensures Linked(w, After(w, actions)) && BindingStore.Consistent(w.state, After(w, actions).store)
  {
    hide Linked, BindingStore.Consistent, Perform, LoadsCommitted, Timely;
    if actions == [] {
      InstalledIsLinked(w);
    } else {
      var init, last := actions[..|actions| - 1], actions[|actions| - 1];
      RunKeepsConsistent(w, init);
      if last.Starts? {
        ConsistentLoadsCommitted(w, After(w, init), last.recovery);
      }
      ActionKeepsLinked(w, After(w, init), last);
      ActionKeepsConsistent(w, After(w, init), last);
    }
  }

  // ---- Main results ----

  /** Over any number of lives, with any interleaving of calls, I/O errors, crashes and file times,
      while the primary is not damaged: a load succeeds and returns the replay of all changes ever
      committed, which are legal from the first to the last. */
  lemma CommittedChangesSurvive(w: World, actions: seq<Action>, recovery: BindingStore.Write)
    requires w.state.al.Lawful() && forall i | 0 <= i < |actions| :: !actions[i].DamagesPrimary?
    ensures var p := After(w, actions);
            var (disk, reply) := BindingStore.Recovered(w.state, p.store.disk, recovery);
            disk == p.store.disk && reply.Loaded? && Replay(map[], p.Log()) == Some(reply.bindings)
  {
    hide BindingStore.Recovered, BindingStore.Steady, Replay, After;
    RunKeepsSteady(w, actions);
    SteadyLoadsCommitted(w, After(w, actions), recovery);
  }

  /** With damage to either file, while the file clock advances: a load returns that replay or
      nothing, and exactly when it returns. */
  lemma LoadReplaysChangesOrRefuses(w: World, actions: seq<Action>, recovery: BindingStore.Write)
    requires w.state.al.Lawful() && TimelyRun(w, actions)
    ensures var p := After(w, actions);
            var reply := BindingStore.Recovered(w.state, p.store.disk, recovery).1;
            && (reply.Loaded? ==> Replay(map[], p.Log()) == Some(reply.bindings))
            && (reply.Loaded? <==> Loadable(w, p.store, recovery))
  {
    hide BindingStore.Recovered, BindingStore.Consistent, Replay, After, Loadable;
    RunKeepsConsistent(w, actions);
    ConsistentLoadsCommitted(w, After(w, actions), recovery);
  }

  /** A start whose load succeeds serves the committed map, with no call under way and nothing added to the log. */
  lemma StartServesCommitted(w: World, p: Plugin, recovery: BindingStore.Write)
    requires Linked(w, p) && LoadsCommitted(w, p, recovery) && !p.Runs()
    ensures var p' := Perform(w, p, Starts(recovery));
            && (p'.Runs() <==> BindingStore.Recovered(w.state, p.store.disk, recovery).1.Loaded?) && p'.Log() == p.Log()
            && (p'.Runs() ==> p'.service == Start(BindingStore.Committed(p.store)))
  {
    hide Replay, WellFormedMap, BindingStore.Recovered;
    assert p.Log() + [] == p.Log() && p.past + [] == p.past;
  }

  /** A persist whose files are written ends in success: the change is the next one in the log, and the
      map it leaves is the one in memory and the one that every load returns. */
  lemma WrittenChangeIsLoaded(w: World, p: Plugin, tid: nat, writes: BindingStore.Writes)
    requires w.state.al.Lawful() && Linked(w, p) && CanPersist(p, tid) && BindingStore.AreWritten(writes)
    ensures var p' := Perform(w, p, Persists(tid, writes));
            && p'.Runs() && tid in p'.service.calls && p'.service.calls[tid].place == Finished(true)
            && p'.Log() == p.Log() + [p.service.calls[tid].place.event]
            && p'.service.bindings == Next(p, tid) && BindingStore.ReadsBack(w.state, p'.store.disk, Next(p, tid))
  {
    hide Consistent, Replay, WellFormedMap, BindingStore.Persisted, BindingStore.ReadsBack;
    BindingStore.PersistIsDoneExactly(w.state, p.store.disk, Next(p, tid), p.service.bindings, writes);
    PersistCommits(w, p.service, tid, true);
    assert PlaceFormed(w, p.service.calls[tid].place);
  }

  /** A change that a call was told of is among those committed, and stays so in every later state. */
  lemma {:induction false} ToldChangesStay(w: World, actions: seq<Action>, more: seq<Action>, tid: nat)
    requires w.state.al.Lawful() && (TimelyRun(w, actions) || forall i | 0 <= i < |actions| :: !actions[i].DamagesPrimary?)
    requires var p := After(w, actions); p.Runs() && tid in p.service.calls && p.service.calls[tid].place == Finished(true)
    ensures var p, p' := After(w, actions), After(w, actions + more);
            p.Log() <= p'.Log() && exists i | |p.past| <= i < |p.Log()| :: p.Log()[i].tid == tid
  {
    hide After, Perform, BindingStore.Steady, BindingStore.Consistent, TimelyRun;
    if TimelyRun(w, actions) {
      RunKeepsConsistent(w, actions);
    } else {
      RunKeepsSteady(w, actions);
    }
    LogGrows(w, actions, more);
    var p := After(w, actions);
    assert AnswerAgrees(p.service, tid);
    var i :| 0 <= i < |p.service.history| && p.service.history[i].tid == tid;
    assert p.Log()[|p.past| + i] == p.service.history[i];
  }

  lemma {:induction false} LogGrows(w: World, actions: seq<Action>, more: seq<Action>)
    ensures After(w, actions).Log() <= After(w, actions + more).Log()
  {
    if more == [] {
      assert actions + more == actions;
    } else {
      var n := |more| - 1;
      LogGrows(w, actions, more[..n]);
      assert (actions + more)[..|actions + more| - 1] == actions + more[..n];
      ActionGrowsLog(w, After(w, actions + more[..n]), more[n]);
      hide Perform;
    }
  }

  lemma ActionGrowsLog(w: World, p: Plugin, action: Action)
    ensures p.Log() <= Perform(w, p, action).Log()
  {
    hide Exec, BindingStore.Exec, BindingStore.Persisted;
    match action
    case Serves(step) =>
      if !step.PersistEnds? {
        NothingCommitted(w, p.service, step);
      }
    case Persists(tid, writes) =>
      if CanPersist(p, tid) {
        PersistCommits(w, p.service, tid, StoreAfter(p, tid, writes).1.Done?);
        LongerTail(p.past, p.service.history, [p.service.calls[tid].place.event]);
      }
    case _ =>
  }

  lemma LongerTail<T>(past: seq<T>, history: seq<T>, more: seq<T>)
    ensures past + history <= past + (history + more)
  {
    assert past + (history + more) == past + history + more;
  }
}
