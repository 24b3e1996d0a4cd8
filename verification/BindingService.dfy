/** Bind and unbind commands of any number of concurrent `handle` calls.

    Concurrency assumption: asyncio runs the code between two awaits without interruption, so
    each step below is one such stretch of one call, and a run is any interleaving of steps.
    A call that is persisting is not cancelled; everywhere else it may fail or be cancelled. */
module BindingService {
  import opened Wrappers
  import opened Json
  import opened BindingState
  import BindingStore

  /** `stripeOf` is the lock index of a group: its hash modulo the number of stripes. */
  datatype World = World(state: Env, stripeOf: string -> nat)

  datatype Command = Bind(memberId: string) | Unbind

  /** What the gateway answers; a refused or broken request is `GatewayFails`. */
  datatype GatewayReply = GatewayFails | Verified(memberId: Json, memberName: Json) | Released

  /** A committed change, and the call that made it. */
  datatype Event = Bound(tid: nat, binding: Binding) | Unbound(tid: nat, groupId: string, user: string)

  /** Where a call waits.  From `Reading` to `Persisting` it holds the stripe of its group. */
  datatype Place =
    | Queued                                       // for the stripe
    | Reading                                      // for the store lock, to read the binding
    | Verifying                                    // for the gateway's verdict on a bind
    | Unbinding(binding: Binding)                  // for the gateway to release the binding
    | Putting(binding: Binding)                    // for the store lock, to put
    | Removing                                     // for the store lock, to remove
    | Persisting(next: Bindings, event: Event)     // for the files; holds the store lock
    | Finished(success: bool)

  datatype Call = Call(groupId: string, userId: string, command: Command, place: Place)

  datatype Service = Service(
    bindings: Bindings,
    stripes: map<nat, nat>,
    storeLock: Option<nat>,
    calls: map<nat, Call>,
    history: seq<Event>)

  datatype Step =
    | Arrive(tid: nat, groupId: string, userId: string, command: Command)
    | TakeStripe(tid: nat)
    | ReadBinding(tid: nat)
    | GatewayAnswers(tid: nat, reply: GatewayReply, now: string)
    | TakeStoreLock(tid: nat)
    | PersistEnds(tid: nat, written: bool)
    | Abandon(tid: nat)

  /** The gateway client refuses any identity that is not plain printable ASCII. */
  predicate IsIdentity(s: string) {
    s != "" && |s| <= 160 && forall i | 0 <= i < |s| :: 33 <= s[i] as int <= 126
  }

  predicate HoldsStripe(place: Place) {
    !place.Queued? && !place.Finished?
  }

  function Move(s: Service, tid: nat, place: Place): Service
    requires tid in s.calls
  {
    s.(calls := s.calls[tid := s.calls[tid].(place := place)])
  }

  /** Leave the critical section: answer, and release the stripe. */
  function Finish(w: World, s: Service, tid: nat, success: bool): Service
    requires tid in s.calls
  {
    var s' := Move(s, tid, Finished(success));
    s'.(stripes := s.stripes - {w.stripeOf(s.calls[tid].groupId)})
  }

  function AfterRead(w: World, s: Service, tid: nat): Service
    requires tid in s.calls
  {
    var c := s.calls[tid];
    var bound := c.groupId in s.bindings;
    match c.command
    case Bind(_) =>
      if bound || !IsIdentity(c.groupId) || !IsIdentity(c.userId) then Finish(w, s, tid, false)
      else Move(s, tid, Verifying)
    case Unbind =>
      if !bound || c.userId != s.bindings[c.groupId].boundBy || !IsIdentity(c.groupId) then Finish(w, s, tid, false)
      else Move(s, tid, Unbinding(s.bindings[c.groupId]))
  }

  /** The binding that `put` builds from a positive verdict, if it gets that far. */
  function Verdict(w: World, c: Call, reply: GatewayReply, now: string): Option<Binding> {
    if !c.command.Bind? || !reply.Verified? || reply.memberId != Str(c.command.memberId)
       || w.state.al.Strip(c.command.memberId) != c.command.memberId
       || (!reply.memberName.Null? && !reply.memberName.Str?) then None
    else
      var name := if reply.memberName.Str? then reply.memberName.s else "";
      var b := FromDict(w.state, BindingStore.BindingDict(c.groupId, c.command.memberId, c.userId, now, name));
      if b.Ok? then Some(b.value) else None
  }

  function AfterGateway(w: World, s: Service, tid: nat, reply: GatewayReply, now: string): Service
    requires tid in s.calls
  {
    if s.calls[tid].place.Verifying? then
      var b := Verdict(w, s.calls[tid], reply, now);
      if b.Some? then Move(s, tid, Putting(b.value)) else Finish(w, s, tid, false)
    else if reply.Released? then Move(s, tid, Removing)
    else Finish(w, s, tid, false)
  }

  /** `put` and `remove` copy the dictionary under the store lock and persist the copy. */
  function AfterStoreLock(w: World, s: Service, tid: nat): Service
    requires tid in s.calls
  {
    var c := s.calls[tid];
    if c.place.Putting? then
      var b := c.place.binding;
      Move(s, tid, Persisting(s.bindings[b.groupId := b], Bound(tid, b))).(storeLock := Some(tid))
    else if c.groupId !in s.bindings then Finish(w, s, tid, true)
    else Move(s, tid, Persisting(s.bindings - {c.groupId}, Unbound(tid, c.groupId, c.userId))).(storeLock := Some(tid))
  }

  function AfterPersist(w: World, s: Service, tid: nat, written: bool): Service
    requires tid in s.calls && s.calls[tid].place.Persisting?
  {
    var p := s.calls[tid].place;
    var s' := Finish(w, s, tid, written).(storeLock := None);
    if written then s'.(bindings := p.next, history := s.history + [p.event]) else s'
  }

  /** A step whose call is not in the right place, or whose lock is taken, does not happen. */
  function Exec(w: World, s: Service, step: Step): Service {
    var tid := step.tid;
    if step.Arrive? then
      if tid in s.calls then s
      else s.(calls := s.calls[tid := Call(step.groupId, step.userId, step.command, Queued)])
    else if tid !in s.calls then s
    else
      var place := s.calls[tid].place;
      var stripe := w.stripeOf(s.calls[tid].groupId);
      match step
      case TakeStripe(_) =>
        if place.Queued? && stripe !in s.stripes then Move(s, tid, Reading).(stripes := s.stripes[stripe := tid]) else s
      case ReadBinding(_) =>
        if place.Reading? && s.storeLock.None? then AfterRead(w, s, tid) else s
      case GatewayAnswers(_, reply, now) =>
        if place.Verifying? || place.Unbinding? then AfterGateway(w, s, tid, reply, now) else s
      case TakeStoreLock(_) =>
        if (place.Putting? || place.Removing?) && s.storeLock.None? then AfterStoreLock(w, s, tid) else s
      case PersistEnds(_, written) =>
        if place.Persisting? then AfterPersist(w, s, tid, written) else s
      case Abandon(_) =>
        if place.Queued? then Move(s, tid, Finished(false))
        else if place.Persisting? || place.Finished? then s
        else Finish(w, s, tid, false)
  }

  function Run(w: World, s: Service, steps: seq<Step>): Service {
    if steps == [] then s else Exec(w, Run(w, s, steps[..|steps| - 1]), steps[|steps| - 1])
  }

  function Start(bindings: Bindings): Service {
    Service(bindings, map[], None, map[], [])
  }

  // ---- The reference: which histories are allowed, and what they leave ----

  function GroupOf(e: Event): string {
    if e.Bound? then e.binding.groupId else e.groupId
  }

  /** A bind needs a free group; an unbind needs a binding made by the same user. */
  predicate Legal(m: Bindings, e: Event) {
    if e.Bound? then e.binding.groupId !in m else e.groupId in m && m[e.groupId].boundBy == e.user
  }

  function Apply(m: Bindings, e: Event): Bindings {
    if e.Bound? then m[e.binding.groupId := e.binding] else m - {e.groupId}
  }

  /** The map that a history leaves, or None if one of its events was not legal. */
  function Replay(m: Bindings, history: seq<Event>): Option<Bindings> {
    if history == [] then Some(m)
    else
      var before := Replay(m, history[..|history| - 1]);
      var last := history[|history| - 1];
      if before.Some? && Legal(before.value, last) then Some(Apply(before.value, last)) else None
  }

  // ---- The invariant ----

  ghost predicate PlaceAgrees(s: Service, tid: nat)
    requires tid in s.calls
  {
    var c := s.calls[tid];
    match c.place
    case Verifying => c.groupId !in s.bindings && IsIdentity(c.groupId) && IsIdentity(c.userId)
    case Putting(b) => c.groupId !in s.bindings && b.groupId == c.groupId && b.boundBy == c.userId
    case Unbinding(b) => c.groupId in s.bindings && s.bindings[c.groupId] == b && b.boundBy == c.userId
    case Removing => c.groupId in s.bindings && s.bindings[c.groupId].boundBy == c.userId
    case Persisting(next, e) =>
      GroupOf(e) == c.groupId && e.tid == tid && Legal(s.bindings, e) && next == Apply(s.bindings, e)
    case _ => true
  }

  /** A call has answered "done" exactly when a change of its own is in the history. */
  ghost predicate AnswerAgrees(s: Service, tid: nat) {
    (tid in s.calls && s.calls[tid].place == Finished(true)) <==> exists i | 0 <= i < |s.history| :: s.history[i].tid == tid
  }

  ghost predicate Consistent(w: World, init: Bindings, s: Service) {
    && Replay(init, s.history) == Some(s.bindings)
    && (forall t | t in s.calls && HoldsStripe(s.calls[t].place) ::
          w.stripeOf(s.calls[t].groupId) in s.stripes && s.stripes[w.stripeOf(s.calls[t].groupId)] == t)
    && (forall t | t in s.calls && s.calls[t].place.Persisting? :: s.storeLock == Some(t))
    && (forall t | t in s.calls :: PlaceAgrees(s, t))
    && (forall t :: AnswerAgrees(s, t))
  }

  /** An identity the gateway accepts is stored unchanged, so the stored key is the locked group. */
  lemma VerdictKeepsIdentities(w: World, c: Call, reply: GatewayReply, now: string)
    requires w.state.al.Lawful() && IsIdentity(c.groupId) && IsIdentity(c.userId)
    ensures var b := Verdict(w, c, reply, now);
            b.Some? ==> b.value.groupId == c.groupId && b.value.boundBy == c.userId && b.value.memberId == c.command.memberId
  {
    if Verdict(w, c, reply, now).Some? {
      var name := if reply.memberName.Str? then reply.memberName.s else "";
      var data := BindingStore.BindingDict(c.groupId, c.command.memberId, c.userId, now, name);
      var b := Binding(c.groupId, c.command.memberId, c.userId, now, name);
      assert data == AsDict(b);
      FieldsOfDict(b);
      w.state.al.StripFixesTrimmed(c.groupId);
      w.state.al.StripFixesTrimmed(c.userId);
    }
  }

  lemma CommitKeepsConsistent(w: World, init: Bindings, s: Service, tid: nat)
    requires Consistent(w, init, s) && tid in s.calls && s.calls[tid].place.Persisting?
    ensures Consistent(w, init, AfterPersist(w, s, tid, true))
  {
    var s' := AfterPersist(w, s, tid, true);
    var e := s.calls[tid].place.event;
    assert s'.history[..|s'.history| - 1] == s.history;
    forall t | t in s'.calls ensures PlaceAgrees(s', t) {
      if t != tid && HoldsStripe(s.calls[t].place) {
        assert s.calls[t].groupId != s.calls[tid].groupId;
      }
    }
    forall t ensures AnswerAgrees(s', t) {
      assert AnswerAgrees(s, t);
      assert s'.history[|s.history|].tid == tid;
      if exists i | 0 <= i < |s.history| :: s.history[i].tid == t {
        var i :| 0 <= i < |s.history| && s.history[i].tid == t;
        assert s'.history[i].tid == t;
      }
    }
  }

  /** Steps that change no binding: one call moves, at most its own lock changes hands. */
  lemma QuietStepKeepsConsistent(w: World, init: Bindings, s: Service, s': Service, tid: nat)
    requires Consistent(w, init, s) && tid in s'.calls
    requires s'.bindings == s.bindings && s'.history == s.history
    requires s'.calls.Keys == s.calls.Keys + {tid} && forall t | t in s.calls && t != tid :: s'.calls[t] == s.calls[t]
    requires tid in s.calls ==> s.calls[tid].place != Finished(true)
    requires s'.calls[tid].place != Finished(true) && PlaceAgrees(s', tid)
    requires forall k | k in s.stripes && s.stripes[k] != tid :: k in s'.stripes && s'.stripes[k] == s.stripes[k]
    requires HoldsStripe(s'.calls[tid].place) ==>
               w.stripeOf(s'.calls[tid].groupId) in s'.stripes && s'.stripes[w.stripeOf(s'.calls[tid].groupId)] == tid
    requires s'.calls[tid].place.Persisting? ==> s'.storeLock == Some(tid)
    requires forall t | t != tid && s.storeLock == Some(t) :: s'.storeLock == Some(t)
    ensures Consistent(w, init, s')
  {
    forall t | t in s'.calls ensures PlaceAgrees(s', t) {
      if t != tid {
        assert PlaceAgrees(s, t);
      }
    }
    forall t ensures AnswerAgrees(s', t) {
      assert AnswerAgrees(s, t);
    }
  }

  lemma ReadKeepsConsistent(w: World, init: Bindings, s: Service, tid: nat)
    requires Consistent(w, init, s) && tid in s.calls && s.calls[tid].place.Reading?
    ensures Consistent(w, init, AfterRead(w, s, tid))
  {
    QuietStepKeepsConsistent(w, init, s, AfterRead(w, s, tid), tid);
  }

  lemma GatewayKeepsConsistent(w: World, init: Bindings, s: Service, tid: nat, reply: GatewayReply, now: string)
    requires w.state.al.Lawful() && Consistent(w, init, s) && tid in s.calls
    requires s.calls[tid].place.Verifying? || s.calls[tid].place.Unbinding?
    ensures Consistent(w, init, AfterGateway(w, s, tid, reply, now))
  {
    assert PlaceAgrees(s, tid);
    if s.calls[tid].place.Verifying? {
      VerdictKeepsIdentities(w, s.calls[tid], reply, now);
    }
    QuietStepKeepsConsistent(w, init, s, AfterGateway(w, s, tid, reply, now), tid);
  }

  lemma StoreLockKeepsConsistent(w: World, init: Bindings, s: Service, tid: nat)
    requires Consistent(w, init, s) && tid in s.calls && s.storeLock.None?
    requires s.calls[tid].place.Putting? || s.calls[tid].place.Removing?
    ensures Consistent(w, init, AfterStoreLock(w, s, tid))
  {
    assert PlaceAgrees(s, tid);
    QuietStepKeepsConsistent(w, init, s, AfterStoreLock(w, s, tid), tid);
  }

  /** Arrivals, and steps that only take or give back locks. */
  lemma LockStepKeepsConsistent(w: World, init: Bindings, s: Service, step: Step)
    requires Consistent(w, init, s) && Exec(w, s, step) != s
    requires step.Arrive? || step.TakeStripe? || step.Abandon? || (step.PersistEnds? && !step.written)
    ensures Consistent(w, init, Exec(w, s, step))
  {
    QuietStepKeepsConsistent(w, init, s, Exec(w, s, step), step.tid);
  }

  lemma StepKeepsConsistent(w: World, init: Bindings, s: Service, step: Step)
    requires w.state.al.Lawful() && Consistent(w, init, s)
    ensures Consistent(w, init, Exec(w, s, step))
  {
    var s' := Exec(w, s, step);
    if s' != s {
      match step
      case ReadBinding(tid) => ReadKeepsConsistent(w, init, s, tid);
      case GatewayAnswers(tid, reply, now) => GatewayKeepsConsistent(w, init, s, tid, reply, now);
      case TakeStoreLock(tid) => StoreLockKeepsConsistent(w, init, s, tid);
      case PersistEnds(tid, true) => CommitKeepsConsistent(w, init, s, tid);
      case _ => LockStepKeepsConsistent(w, init, s, step);
    }
  }

  lemma {:induction false} RunKeepsConsistent(w: World, init: Bindings, steps: seq<Step>)
    requires w.state.al.Lawful()
    ensures Consistent(w, init, Run(w, Start(init), steps))
  {
    if steps != [] {
      RunKeepsConsistent(w, init, steps[..|steps| - 1]);
      StepKeepsConsistent(w, init, Run(w, Start(init), steps[..|steps| - 1]), steps[|steps| - 1]);
    }
  }

  /** A lock that is taken is held by a call that needs it: a stripe from the reading of the binding to the
      answer, the store lock for a persist. */
  ghost predicate LocksAreHeld(w: World, s: Service) {
    && (forall k | k in s.stripes ::
          s.stripes[k] in s.calls && HoldsStripe(s.calls[s.stripes[k]].place) && w.stripeOf(s.calls[s.stripes[k]].groupId) == k)
    && (s.storeLock.Some? ==> s.storeLock.value in s.calls && s.calls[s.storeLock.value].place.Persisting?)
  }

  /** The stripe of a call, and the store lock of a persisting one, are its own. */
  ghost predicate OwnsLocks(w: World, s: Service, tid: nat)
    requires tid in s.calls
  {
    && (HoldsStripe(s.calls[tid].place) ==>
          w.stripeOf(s.calls[tid].groupId) in s.stripes && s.stripes[w.stripeOf(s.calls[tid].groupId)] == tid)
    && (s.calls[tid].place.Persisting? ==> s.storeLock == Some(tid))
  }

  lemma FinishingKeepsLocksHeld(w: World, s: Service, tid: nat, success: bool)
    requires tid in s.calls && LocksAreHeld(w, s) && OwnsLocks(w, s, tid) && HoldsStripe(s.calls[tid].place)
    ensures var s' := Finish(w, s, tid, success);
            if s.calls[tid].place.Persisting? then LocksAreHeld(w, s'.(storeLock := None)) else LocksAreHeld(w, s')
  {
  }

  lemma MovingKeepsLocksHeld(w: World, s: Service, tid: nat, place: Place)
    requires tid in s.calls && LocksAreHeld(w, s) && OwnsLocks(w, s, tid) && HoldsStripe(s.calls[tid].place) && HoldsStripe(place)
    requires !s.calls[tid].place.Persisting?
    ensures LocksAreHeld(w, Move(s, tid, place))
    ensures place.Persisting? ==> LocksAreHeld(w, Move(s, tid, place).(storeLock := Some(tid)))
  {
  }

  lemma ReadingKeepsLocksHeld(w: World, s: Service, tid: nat)
    requires tid in s.calls && LocksAreHeld(w, s) && OwnsLocks(w, s, tid) && s.calls[tid].place.Reading?
    ensures LocksAreHeld(w, AfterRead(w, s, tid))
  {
    hide LocksAreHeld, OwnsLocks, Finish, Move, IsIdentity;
    FinishingKeepsLocksHeld(w, s, tid, false);
    MovingKeepsLocksHeld(w, s, tid, Verifying);
    if s.calls[tid].groupId in s.bindings {
      MovingKeepsLocksHeld(w, s, tid, Unbinding(s.bindings[s.calls[tid].groupId]));
    }
  }

  lemma AnsweringKeepsLocksHeld(w: World, s: Service, tid: nat, reply: GatewayReply, now: string)
    requires tid in s.calls && LocksAreHeld(w, s) && OwnsLocks(w, s, tid) && (s.calls[tid].place.Verifying? || s.calls[tid].place.Unbinding?)
    ensures LocksAreHeld(w, AfterGateway(w, s, tid, reply, now))
  {
    hide LocksAreHeld, OwnsLocks, Finish, Move, Verdict;
    FinishingKeepsLocksHeld(w, s, tid, false);
    MovingKeepsLocksHeld(w, s, tid, Removing);
    var b := Verdict(w, s.calls[tid], reply, now);
    if b.Some? {
      MovingKeepsLocksHeld(w, s, tid, Putting(b.value));
    }
  }

  lemma LockingKeepsLocksHeld(w: World, s: Service, tid: nat)
    requires tid in s.calls && LocksAreHeld(w, s) && OwnsLocks(w, s, tid) && (s.calls[tid].place.Putting? || s.calls[tid].place.Removing?)
    ensures LocksAreHeld(w, AfterStoreLock(w, s, tid))
  {
    hide LocksAreHeld, OwnsLocks, Finish, Move;
    FinishingKeepsLocksHeld(w, s, tid, true);
    var c := s.calls[tid];
    if c.place.Putting? {
      var b := c.place.binding;
      MovingKeepsLocksHeld(w, s, tid, Persisting(s.bindings[b.groupId := b], Bound(tid, b)));
    } else {
      MovingKeepsLocksHeld(w, s, tid, Persisting(s.bindings - {c.groupId}, Unbound(tid, c.groupId, c.userId)));
    }
  }

  lemma EndingKeepsLocksHeld(w: World, s: Service, tid: nat, written: bool)
    requires tid in s.calls && LocksAreHeld(w, s) && OwnsLocks(w, s, tid) && s.calls[tid].place.Persisting?
    ensures LocksAreHeld(w, AfterPersist(w, s, tid, written))
  {
    FinishingKeepsLocksHeld(w, s, tid, written);
    hide OwnsLocks, Finish;
  }

  lemma CallKeepsLocksHeld(w: World, s: Service, step: Step)
    requires step.tid in s.calls && LocksAreHeld(w, s) && OwnsLocks(w, s, step.tid) && HoldsStripe(s.calls[step.tid].place)
    ensures LocksAreHeld(w, Exec(w, s, step))
  {
    hide LocksAreHeld, OwnsLocks, Finish, Move, AfterRead, AfterGateway, AfterStoreLock, AfterPersist;
    var tid, place := step.tid, s.calls[step.tid].place;
    match step
    case ReadBinding(_) =>
      if place.Reading? {
        ReadingKeepsLocksHeld(w, s, tid);
      }
    case GatewayAnswers(_, reply, now) =>
      if place.Verifying? || place.Unbinding? {
        AnsweringKeepsLocksHeld(w, s, tid, reply, now);
      }
    case TakeStoreLock(_) =>
      if place.Putting? || place.Removing? {
        LockingKeepsLocksHeld(w, s, tid);
      }
    case PersistEnds(_, written) =>
      if place.Persisting? {
        EndingKeepsLocksHeld(w, s, tid, written);
      }
    case _ =>
      FinishingKeepsLocksHeld(w, s, tid, false);
  }

  lemma StepKeepsLocksHeld(w: World, init: Bindings, s: Service, step: Step)
    requires Consistent(w, init, s) && LocksAreHeld(w, s)
    ensures LocksAreHeld(w, Exec(w, s, step))
  {
    hide Replay, PlaceAgrees, AnswerAgrees, AfterRead, AfterGateway, AfterStoreLock, AfterPersist, Finish;
    if step.tid in s.calls && HoldsStripe(s.calls[step.tid].place) {
      CallKeepsLocksHeld(w, s, step);
      hide LocksAreHeld, Exec;
    }
  }

  lemma {:induction false} RunKeepsLocksHeld(w: World, init: Bindings, steps: seq<Step>)
    requires w.state.al.Lawful()
    ensures LocksAreHeld(w, Run(w, Start(init), steps))
  {
    hide LocksAreHeld, Consistent, Exec;
    if steps == [] {
      NoLocksAtStart(w, init);
    } else {
      var before := steps[..|steps| - 1];
      RunKeepsConsistent(w, init, before);
      RunKeepsLocksHeld(w, init, before);
      StepKeepsLocksHeld(w, init, Run(w, Start(init), before), steps[|steps| - 1]);
    }
  }

  lemma NoLocksAtStart(w: World, init: Bindings)
    ensures LocksAreHeld(w, Start(init))
  {
  }

  // ---- Main results ----

  /** No lock leaks: over every interleaving, with calls that fail or are abandoned anywhere, a call that has
      answered holds no lock, and when all have, every lock is free. */
  lemma LocksAreReleased(w: World, init: Bindings, steps: seq<Step>, tid: nat)
    requires w.state.al.Lawful()
    requires var s := Run(w, Start(init), steps); tid in s.calls && s.calls[tid].place.Finished?
    ensures var s := Run(w, Start(init), steps);
            && (forall k | k in s.stripes :: s.stripes[k] != tid) && s.storeLock != Some(tid)
            && ((forall t | t in s.calls :: s.calls[t].place.Finished?) ==> s.stripes == map[] && s.storeLock.None?)
  {
    hide Run;
    RunKeepsLocksHeld(w, init, steps);
    var s := Run(w, Start(init), steps);
    if forall t | t in s.calls :: s.calls[t].place.Finished? {
      assert s.stripes.Keys == {};
    }
  }

  /** Over every interleaving the committed history is legal from the first event to the last,
      and it accounts for the whole map: no update is lost or invented. */
  lemma HistoryIsLegal(w: World, init: Bindings, steps: seq<Step>)
    requires w.state.al.Lawful()
    ensures var s := Run(w, Start(init), steps); Replay(init, s.history) == Some(s.bindings)
  {
    RunKeepsConsistent(w, init, steps);
  }

  /** A call answers with success exactly when it committed a change. */
  lemma SuccessMeansCommitted(w: World, init: Bindings, steps: seq<Step>, tid: nat)
    requires w.state.al.Lawful()
    ensures var s := Run(w, Start(init), steps);
            (tid in s.calls && s.calls[tid].place == Finished(true))
            <==> exists i | 0 <= i < |s.history| :: s.history[i].tid == tid
  {
    RunKeepsConsistent(w, init, steps);
    assert AnswerAgrees(Run(w, Start(init), steps), tid);
  }

  /** Two calls of the same group are never inside the critical section together. */
  lemma OneCallPerGroup(w: World, init: Bindings, steps: seq<Step>, t: nat, u: nat)
    requires w.state.al.Lawful()
    requires var s := Run(w, Start(init), steps);
             t in s.calls && u in s.calls && s.calls[t].groupId == s.calls[u].groupId
             && HoldsStripe(s.calls[t].place) && HoldsStripe(s.calls[u].place)
    ensures t == u
  {
    RunKeepsConsistent(w, init, steps);
  }

  lemma {:induction false} LastEventDecides(m: Bindings, history: seq<Event>, i: nat)
    requires i < |history| && Replay(m, history).Some?
    requires forall k | i < k < |history| :: GroupOf(history[k]) != GroupOf(history[i])
    ensures var now := Replay(m, history).value; var g := GroupOf(history[i]);
            if history[i].Bound? then g in now && now[g] == history[i].binding else g !in now
  {
    var n := |history| - 1;
    if i < n {
      LastEventDecides(m, history[..n], i);
    }
  }

  lemma {:induction false} PrefixReplays(m: Bindings, history: seq<Event>, n: nat)
    requires n <= |history| && Replay(m, history).Some?
    ensures Replay(m, history[..n]).Some?
    decreases |history|
  {
    if n < |history| {
      PrefixReplays(m, history[..|history| - 1], n);
      assert history[..|history| - 1][..n] == history[..n];
    } else {
      assert history[..n] == history;
    }
  }

  /** Per group the history strictly alternates, and an unbind is always made by the user who
      made the bind it undoes. */
  lemma BindAndUnbindAlternate(w: World, init: Bindings, steps: seq<Step>, i: nat, j: nat)
    requires w.state.al.Lawful()
    requires var h := Run(w, Start(init), steps).history;
             i < j < |h| && GroupOf(h[i]) == GroupOf(h[j])
             && forall k | i < k < j :: GroupOf(h[k]) != GroupOf(h[i])
    ensures var h := Run(w, Start(init), steps).history;
            && (h[i].Bound? <==> h[j].Unbound?)
            && (h[j].Unbound? ==> h[j].user == h[i].binding.boundBy)
  {
    hide Run, Replay;
    HistoryIsLegal(w, init, steps);
    AlternateInHistory(init, Run(w, Start(init), steps).history, i, j);
  }

  lemma AlternateInHistory(init: Bindings, h: seq<Event>, i: nat, j: nat)
    requires Replay(init, h).Some? && i < j < |h| && GroupOf(h[i]) == GroupOf(h[j])
    requires forall k | i < k < j :: GroupOf(h[k]) != GroupOf(h[i])
    ensures h[i].Bound? <==> h[j].Unbound?
    ensures h[j].Unbound? ==> h[j].user == h[i].binding.boundBy
  {
    PrefixReplays(init, h, j + 1);
    EventWasLegal(init, h[..j + 1]);
    hide Replay;
    assert h[..j + 1][..j] == h[..j];
    LastEventDecides(init, h[..j], i);
  }

  lemma EventWasLegal(m: Bindings, history: seq<Event>)
    requires history != [] && Replay(m, history).Some?
    ensures var n := |history| - 1; Replay(m, history[..n]).Some? && Legal(Replay(m, history[..n]).value, history[n])
  {
  }
}
