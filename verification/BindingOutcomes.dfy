/** What a bind or an unbind call comes to, from its arrival to its answer, with any steps of other
    calls in between: exactly when it succeeds, and what it then changes. */
module BindingOutcomes {
  import opened Wrappers
  import opened PyText
  import opened Json
  import opened BindingState
  import opened BindingService
  import BindingStore

  // ---- A call among others ----

  /** One step, and then any steps of other calls. */
  ghost predicate Follows(w: World, s: Service, step: Step, s': Service) {
    exists others :: OfOthers(others, step.tid) && s' == Run(w, Exec(w, s, step), others)
  }

  predicate OfOthers(steps: seq<Step>, tid: nat) {
    forall i | 0 <= i < |steps| :: steps[i].tid != tid
  }

  /** The service when the call has arrived, has entered its critical section, has read the binding, has
      been answered by the gateway and has taken the store lock, and when its persist has ended. */
  datatype Visit = Visit(arrived: Service, entered: Service, read: Service, answered: Service, locked: Service, ended: Service)

  /** A call that takes all its steps, each of its locks being free when it asks for it. */
  ghost predicate IsVisit(w: World, s: Service, tid: nat, groupId: string, userId: string, command: Command,
                          reply: GatewayReply, now: string, written: bool, v: Visit) {
    && tid !in s.calls
    && Follows(w, s, Arrive(tid, groupId, userId, command), v.arrived)
    && w.stripeOf(groupId) !in v.arrived.stripes && Follows(w, v.arrived, TakeStripe(tid), v.entered)
    && v.entered.storeLock.None? && Follows(w, v.entered, ReadBinding(tid), v.read)
    && Follows(w, v.read, GatewayAnswers(tid, reply, now), v.answered)
    && v.answered.storeLock.None? && Follows(w, v.answered, TakeStoreLock(tid), v.locked)
    && v.ended == Exec(w, v.locked, PersistEnds(tid, written))
  }

  lemma OthersLeaveCall(w: World, s: Service, step: Step, tid: nat)
    requires tid in s.calls && step.tid != tid
    ensures var s' := Exec(w, s, step); tid in s'.calls && s'.calls[tid] == s.calls[tid]
  {
    hide Verdict;
  }

  lemma {:induction false} OthersKeep(w: World, init: Bindings, s: Service, others: seq<Step>, tid: nat)
    requires w.state.al.Lawful() && Consistent(w, init, s) && tid in s.calls && OfOthers(others, tid)
    ensures var s' := Run(w, s, others);
            Consistent(w, init, s') && tid in s'.calls && s'.calls[tid] == s.calls[tid]
            && (s.calls[tid].place.Persisting? ==> s'.bindings == s.bindings && s'.history == s.history)
  {
    hide Consistent, Exec;
    if others != [] {
      var n := |others| - 1;
      var before := Run(w, s, others[..n]);
      OthersKeep(w, init, s, others[..n], tid);
      BindingService.StepKeepsConsistent(w, init, before, others[n]);
      OthersLeaveCall(w, before, others[n], tid);
      if s.calls[tid].place.Persisting? {
        OnlyOnePersists(w, init, before, others[n], tid);
      }
    }
  }

  /** While a call persists, no other one commits. */
  lemma OnlyOnePersists(w: World, init: Bindings, s: Service, step: Step, tid: nat)
    requires Consistent(w, init, s) && tid in s.calls && s.calls[tid].place.Persisting? && step.tid != tid
    ensures Exec(w, s, step).bindings == s.bindings && Exec(w, s, step).history == s.history
  {
    hide Verdict;
  }

  /** After a step of its own and steps of others the call stands where its step has put it. */
  lemma StandsAfter(w: World, init: Bindings, s: Service, step: Step, s': Service)
    requires w.state.al.Lawful() && Consistent(w, init, s) && Follows(w, s, step, s')
    requires step.tid in Exec(w, s, step).calls
    ensures var now := Exec(w, s, step); var tid := step.tid;
            Consistent(w, init, s') && tid in s'.calls && s'.calls[tid] == now.calls[tid]
            && (now.calls[tid].place.Persisting? ==> s'.bindings == now.bindings && s'.history == now.history)
  {
    hide Consistent, Exec;
    var others :| OfOthers(others, step.tid) && s' == Run(w, Exec(w, s, step), others);
    BindingService.StepKeepsConsistent(w, init, s, step);
    OthersKeep(w, init, Exec(w, s, step), others, step.tid);
  }

  // ---- What the gateway and the store make of a verdict ----

  /** A time stamp as the store writes it. */
  predicate IsTimeStamp(env: Env, now: string) {
    IsIdentifier(env.al, now) && env.hasTimezone(now)
  }

  /** The gateway has verified the very member that was asked for, with a name or without. */
  predicate Verifies(env: Env, memberId: string, reply: GatewayReply) {
    && reply.Verified? && reply.memberId == Str(memberId) && IsIdentifier(env.al, memberId)
    && (reply.memberName.Null? || reply.memberName.Str?)
  }

  /** The name of a member as it is stored. */
  function NameOf(env: Env, reply: GatewayReply): string
    requires reply.Verified? && (reply.memberName.Null? || reply.memberName.Str?)
  {
    MemberName(env.al, reply.memberName).value
  }

  lemma IdentityIsIdentifier(al: Alphabet, s: string)
    requires al.Lawful() && IsIdentity(s)
    ensures IsIdentifier(al, s)
  {
  }

  /** A dictionary of texts that need no stripping is a binding exactly if its member is an identifier. */
  lemma DictIsBinding(env: Env, groupId: string, memberId: string, boundBy: string, now: string, name: string)
    requires IsIdentifier(env.al, groupId) && IsIdentifier(env.al, boundBy) && IsTimeStamp(env, now)
    requires env.al.Strip(memberId) == memberId
    ensures var b := FromDict(env, BindingStore.BindingDict(groupId, memberId, boundBy, now, name));
            if IsIdentifier(env.al, memberId)
            then b == Ok(Binding(groupId, memberId, boundBy, now, MemberName(env.al, Str(name)).value))
            else b.Err?
  {
    var b := Binding(groupId, memberId, boundBy, now, name);
    FieldsOfDict(b);
    IdentifierFixedPoints(env.al, Null, groupId);
    IdentifierFixedPoints(env.al, Str(memberId), memberId);
    IdentifierFixedPoints(env.al, Null, boundBy);
    IdentifierFixedPoints(env.al, Null, now);
    assert BindingStore.BindingDict(groupId, memberId, boundBy, now, name) == AsDict(b);
    hide IsIdentifier, Get, Has, AsDict, Alphabet.Strip, Alphabet.Collapse, Alphabet.HasUnsafe;
  }

  lemma VerdictExactly(w: World, c: Call, reply: GatewayReply, now: string)
    requires w.state.al.Lawful() && c.command.Bind? && IsIdentity(c.groupId) && IsIdentity(c.userId) && IsTimeStamp(w.state, now)
    ensures var memberId := c.command.memberId;
            Verdict(w, c, reply, now) == if Verifies(w.state, memberId, reply)
              then Some(Binding(c.groupId, memberId, c.userId, now, NameOf(w.state, reply))) else None
  {
    hide FromDict, MemberName, IsIdentity, Alphabet.Strip;
    var memberId := c.command.memberId;
    IdentityIsIdentifier(w.state.al, c.groupId);
    IdentityIsIdentifier(w.state.al, c.userId);
    if IsIdentifier(w.state.al, memberId) {
      w.state.al.StripFixesTrimmed(memberId);
    }
    if reply.Verified? && w.state.al.Strip(memberId) == memberId {
      NoNameIsEmpty(w.state.al);
      DictIsBinding(w.state, c.groupId, memberId, c.userId, now, if reply.memberName.Str? then reply.memberName.s else "");
    }
  }

  lemma NoNameIsEmpty(al: Alphabet)
    ensures MemberName(al, Str("")) == MemberName(al, Null)
  {
    assert al.Sanitize("") == "";
  }

  // ---- Bind ----

  /** Over a visit of a bind: exactly when it succeeds, and the map and the history it then leaves.  The
      group has to be free and the identities acceptable when the call reads, the gateway has to verify
      the member asked for, and the files have to be written. */
  lemma BindAnswersExactly(w: World, init: Bindings, s: Service, tid: nat, groupId: string, userId: string, memberId: string,
                           reply: GatewayReply, now: string, written: bool, v: Visit)
    requires w.state.al.Lawful() && Consistent(w, init, s) && IsTimeStamp(w.state, now)
    requires IsVisit(w, s, tid, groupId, userId, Bind(memberId), reply, now, written, v)
    ensures var ok := groupId !in v.entered.bindings && IsIdentity(groupId) && IsIdentity(userId)
                      && Verifies(w.state, memberId, reply) && written;
            && tid in v.ended.calls && v.ended.calls[tid].place == Finished(ok)
            && (if ok then
                  var b := Binding(groupId, memberId, userId, now, NameOf(w.state, reply));
                  && groupId !in v.answered.bindings && v.ended.bindings == v.answered.bindings[groupId := b]
                  && v.ended.history == v.answered.history + [Bound(tid, b)]
                else v.ended.bindings == v.locked.bindings && forall i | 0 <= i < |v.ended.history| :: v.ended.history[i].tid != tid)
  {
    hide Consistent, Exec, Verdict, NameOf, Verifies, Follows, IsIdentity, IsTimeStamp;
    Entering(w, init, s, tid, groupId, userId, Bind(memberId), v);
    Reading(w, v.entered, tid);
    StandsAfter(w, init, v.entered, ReadBinding(tid), v.read);
    Answering(w, v.read, tid, reply, now);
    StandsAfter(w, init, v.read, GatewayAnswers(tid, reply, now), v.answered);
    Locking(w, v.answered, tid);
    StandsAfter(w, init, v.answered, TakeStoreLock(tid), v.locked);
    Ending(w, v.locked, tid, written);
    BindingService.StepKeepsConsistent(w, init, v.locked, PersistEnds(tid, written));
    AnswerTellsHistory(w, init, v.ended, tid);
    GroupStaysPut(w, init, v.answered, tid);
    if IsIdentity(groupId) && IsIdentity(userId) {
      VerdictExactly(w, v.read.calls[tid], reply, now);
    }
  }

  lemma Entering(w: World, init: Bindings, s: Service, tid: nat, groupId: string, userId: string, command: Command, v: Visit)
    requires w.state.al.Lawful() && Consistent(w, init, s) && tid !in s.calls
    requires Follows(w, s, Arrive(tid, groupId, userId, command), v.arrived)
    requires w.stripeOf(groupId) !in v.arrived.stripes && Follows(w, v.arrived, TakeStripe(tid), v.entered)
    ensures Consistent(w, init, v.entered) && tid in v.entered.calls
    ensures v.entered.calls[tid] == Call(groupId, userId, command, Place.Reading)
  {
    hide Consistent, Follows;
    StandsAfter(w, init, s, Arrive(tid, groupId, userId, command), v.arrived);
    StandsAfter(w, init, v.arrived, TakeStripe(tid), v.entered);
  }

  /** The call reads the binding of its group. */
  lemma Reading(w: World, s: Service, tid: nat)
    requires tid in s.calls && s.calls[tid].place.Reading? && s.storeLock.None?
    ensures var c := s.calls[tid]; var s' := Exec(w, s, ReadBinding(tid));
            && tid in s'.calls && s'.bindings == s.bindings
            && s'.calls[tid] == c.(place :=
                 if c.command.Bind? then
                   if c.groupId !in s.bindings && IsIdentity(c.groupId) && IsIdentity(c.userId) then Verifying else Finished(false)
                 else if c.groupId in s.bindings && c.userId == s.bindings[c.groupId].boundBy && IsIdentity(c.groupId)
                 then Unbinding(s.bindings[c.groupId]) else Finished(false))
  {
    hide IsIdentity;
  }

  lemma Answering(w: World, s: Service, tid: nat, reply: GatewayReply, now: string)
    requires tid in s.calls
    ensures var c := s.calls[tid]; var s' := Exec(w, s, GatewayAnswers(tid, reply, now));
            && tid in s'.calls && s'.bindings == s.bindings
            && s'.calls[tid] == c.(place :=
                 if c.place.Verifying? then
                   if Verdict(w, c, reply, now).Some? then Putting(Verdict(w, c, reply, now).value) else Finished(false)
                 else if c.place.Unbinding? then if reply.Released? then Removing else Finished(false)
                 else c.place)
  {
    hide Verdict;
  }

  lemma Locking(w: World, s: Service, tid: nat)
    requires tid in s.calls && s.storeLock.None?
    ensures var c := s.calls[tid]; var s' := Exec(w, s, TakeStoreLock(tid));
            && tid in s'.calls && s'.bindings == s.bindings && s'.history == s.history
            && s'.calls[tid] == c.(place :=
                 if c.place.Putting? then Persisting(s.bindings[c.place.binding.groupId := c.place.binding], Bound(tid, c.place.binding))
                 else if c.place.Removing? then
                   if c.groupId in s.bindings then Persisting(s.bindings - {c.groupId}, Unbound(tid, c.groupId, c.userId))
                   else Finished(true)
                 else c.place)
  {
  }

  lemma Ending(w: World, s: Service, tid: nat, written: bool)
    requires tid in s.calls
    ensures var p := s.calls[tid].place; var s' := Exec(w, s, PersistEnds(tid, written));
            && tid in s'.calls && s'.calls[tid].place == (if p.Persisting? then Finished(written) else p)
            && (if p.Persisting? && written then s'.bindings == p.next && s'.history == s.history + [p.event]
                else s'.bindings == s.bindings && s'.history == s.history)
  {
  }

  lemma AnswerTellsHistory(w: World, init: Bindings, s: Service, tid: nat)
    requires Consistent(w, init, s) && tid in s.calls
    ensures s.calls[tid].place != Finished(true) ==> forall i | 0 <= i < |s.history| :: s.history[i].tid != tid
  {
    assert AnswerAgrees(s, tid);
  }

  lemma GroupStaysPut(w: World, init: Bindings, s: Service, tid: nat)
    requires Consistent(w, init, s) && tid in s.calls
    ensures var c := s.calls[tid];
            && (c.place.Putting? ==> c.groupId !in s.bindings && c.place.binding.groupId == c.groupId)
            && (c.place.Removing? ==> c.groupId in s.bindings && s.bindings[c.groupId].boundBy == c.userId)
  {
    assert PlaceAgrees(s, tid);
  }

  // ---- Unbind ----

  /** Over a visit of an unbind: it succeeds exactly if the group is bound by this very user when the call
      reads, its id is acceptable, the gateway releases it and the files are written; then the group is free. */
  lemma UnbindAnswersExactly(w: World, init: Bindings, s: Service, tid: nat, groupId: string, userId: string,
                             reply: GatewayReply, now: string, written: bool, v: Visit)
    requires w.state.al.Lawful() && Consistent(w, init, s)
    requires IsVisit(w, s, tid, groupId, userId, Unbind, reply, now, written, v)
    ensures var ok := groupId in v.entered.bindings && v.entered.bindings[groupId].boundBy == userId && IsIdentity(groupId)
                      && reply.Released? && written;
            && tid in v.ended.calls && v.ended.calls[tid].place == Finished(ok)
            && (if ok then
                  && groupId in v.answered.bindings && v.ended.bindings == v.answered.bindings - {groupId}
                  && v.ended.history == v.answered.history + [Unbound(tid, groupId, userId)]
                else v.ended.bindings == v.locked.bindings && forall i | 0 <= i < |v.ended.history| :: v.ended.history[i].tid != tid)
  {
    hide Consistent, Exec, Verdict, Follows, IsIdentity;
    Entering(w, init, s, tid, groupId, userId, Unbind, v);
    Reading(w, v.entered, tid);
    StandsAfter(w, init, v.entered, ReadBinding(tid), v.read);
    Answering(w, v.read, tid, reply, now);
    StandsAfter(w, init, v.read, GatewayAnswers(tid, reply, now), v.answered);
    Locking(w, v.answered, tid);
    GroupStaysPut(w, init, v.answered, tid);
    StandsAfter(w, init, v.answered, TakeStoreLock(tid), v.locked);
    Ending(w, v.locked, tid, written);
    BindingService.StepKeepsConsistent(w, init, v.locked, PersistEnds(tid, written));
    AnswerTellsHistory(w, init, v.ended, tid);
  }

  // ---- Such visits exist ----

  /** A new call can make its visit alone from any state in which its stripe and the store lock are free. */
  lemma VisitExists(w: World, init: Bindings, s: Service, tid: nat, groupId: string, userId: string, command: Command,
                    reply: GatewayReply, now: string, written: bool) returns (v: Visit)
    requires w.state.al.Lawful() && Consistent(w, init, s)
    requires tid !in s.calls && w.stripeOf(groupId) !in s.stripes && s.storeLock.None?
    ensures IsVisit(w, s, tid, groupId, userId, command, reply, now, written, v) && v.entered.bindings == s.bindings
  {
    hide Consistent, Verdict, Follows;
    var arrived := Exec(w, s, Arrive(tid, groupId, userId, command));
    var entered := Exec(w, arrived, TakeStripe(tid));
    var read := Exec(w, entered, ReadBinding(tid));
    var answered := Exec(w, read, GatewayAnswers(tid, reply, now));
    var locked := Exec(w, answered, TakeStoreLock(tid));
    v := Visit(arrived, entered, read, answered, locked, Exec(w, locked, PersistEnds(tid, written)));
    Alone(w, s, Arrive(tid, groupId, userId, command));
    Alone(w, arrived, TakeStripe(tid));
    Alone(w, entered, ReadBinding(tid));
    Alone(w, read, GatewayAnswers(tid, reply, now));
    Alone(w, answered, TakeStoreLock(tid));
  }

  lemma Alone(w: World, s: Service, step: Step)
    ensures Follows(w, s, step, Exec(w, s, step))
  {
    assert OfOthers([], step.tid) && Run(w, Exec(w, s, step), []) == Exec(w, s, step);
  }

  /** So a service that starts with an empty map binds a group to any member that the gateway verifies. */
  lemma FirstBindSucceeds(w: World, groupId: string, userId: string, memberId: string, memberName: Json, now: string)
    returns (v: Visit)
    requires w.state.al.Lawful() && IsIdentity(groupId) && IsIdentity(userId) && IsIdentifier(w.state.al, memberId)
    requires (memberName.Null? || memberName.Str?) && IsTimeStamp(w.state, now)
    ensures IsVisit(w, Start(map[]), 0, groupId, userId, Bind(memberId), Verified(Str(memberId), memberName), now, true, v)
    ensures 0 in v.ended.calls && v.ended.calls[0].place == Finished(true) && groupId in v.ended.bindings
    ensures v.ended.bindings[groupId] == Binding(groupId, memberId, userId, now, NameOf(w.state, Verified(Str(memberId), memberName)))
  {
    hide IsVisit, IsIdentity, NameOf, IsIdentifier, IsTimeStamp, Exec;
    assert Consistent(w, map[], Start(map[]));
    v := VisitExists(w, map[], Start(map[]), 0, groupId, userId, Bind(memberId), Verified(Str(memberId), memberName), now, true);
    BindAnswersExactly(w, map[], Start(map[]), 0, groupId, userId, memberId, Verified(Str(memberId), memberName), now, true, v);
  }
}
