/** What a reply completes with: exactly what has happened to its frame, over every run. */
module ReplyResults {
  import opened Wrappers
  import opened ReplyQueues

  /** How the handling of a frame ended: its sending raised, no answer came in time, an answer came, the
      connection was lost, the report of the result raised, or the worker was cancelled. */
  datatype End = SendFailed | NoAnswer | Answer | ConnectionGone | ReportFailed | Abandoned

  predicate Fails(e: End) {
    e.SendFailed? || e.ConnectionGone? || e.ReportFailed?
  }

  function ResultOf(e: End): ReplyQueues.Result {
    match e
    case Answer => Acknowledged
    case NoAnswer => TimedOut
    case _ => Failed
  }

  /** What a step of the worker means for frame `x`. */
  ghost function EndOf(p: Option<Phase>, c: Core, s: LineStep, x: nat): Option<End> {
    if !s.Work? then None
    else if p == Some(Sending(x)) then
      if s.act.SendRaised? then Some(SendFailed) else if s.act.AckTimeout? then Some(NoAnswer)
      else if s.act.Leave? then Some(Abandoned) else None
    else if p == Some(AwaitingAck(x)) then
      if s.act.AckTimeout? then Some(NoAnswer) else if s.act.Leave? then Some(Abandoned)
      else if s.act.Resume? && WasAnswered(c, x) then Some(Answer)
      else if s.act.Resume? && WasRejected(c, x) then Some(ConnectionGone) else None
    else if Reports(p, x) then
      if s.act == Finish(true) then Some(ReportFailed) else if s.act.Leave? then Some(Abandoned) else None
    else None
  }

  ghost function EndAt(v: View, s: LineStep, x: nat): Option<End> {
    EndOf(v.phase, v.core, s, x)
  }

  ghost predicate WasRejected(c: Core, x: nat) {
    x in c.acks && c.acks[x].Rejected?
  }

  ghost predicate BySender(c: Core, x: nat) {
    x in c.done && c.done[x].SenderCancelled?
  }

  /** A reply that its sender has not cancelled is completed with the result of its frame's end, unless
      that is still being reported. */
  ghost predicate TellsOf(p: Option<Phase>, c: Core, e: Option<End>, x: nat) {
    && (x in c.done && !BySender(c, x) ==> e.Some? && !e.value.Abandoned? && c.done[x] == ResultOf(e.value))
    && (e.Some? && !e.value.Abandoned? ==> x in c.done || Reports(p, x))
    && (Reports(p, x) ==> (x in c.done ==> BySender(c, x)) && e.Some? && !Fails(e.value) && !e.value.Abandoned?
                          && p.value.result == ResultOf(e.value))
    && (e.Some? ==> x in c.settled)
  }

  ghost predicate Tells(v: View, e: Option<End>, x: nat) {
    TellsOf(v.phase, v.core, e, x)
  }

  /** The future that a worker waits for was not dropped. */
  ghost predicate AwaitsLiveOf(p: Option<Phase>, c: Core) {
    p.Some? && Waits(p.value) ==> p.value.reply in c.acks && !c.acks[p.value.reply].Dropped?
  }

  ghost predicate AwaitsLive(v: View) {
    AwaitsLiveOf(v.phase, v.core)
  }

  function Later(e: Option<End>, next: Option<End>): Option<End> {
    if next.Some? then next else e
  }

  lemma InFlightIsNotSettled(v: View)
    requires ViewOk(v) && v.phase.Some? && Waits(v.phase.value)
    ensures v.phase.value.reply !in v.core.settled
  {
    var all := v.core.handed + v.queue;
    var n := |v.core.settled|;
    assert v.core.handed[n] == v.phase.value.reply;
    forall i | 0 <= i < n ensures v.core.settled[i] != v.phase.value.reply {
      assert v.core.handed[i] == v.core.settled[i] && all[i] == v.core.handed[i] && all[n] == v.core.handed[n];
    }
    hide DoneHanded, AcksRouted, AcksTrue, Accounted;
  }

  lemma WaitKeepsTells(p: Phase, cancelled: bool, queue: seq<nat>, c: Core, running: bool, s: LineStep, e: Option<End>, x: nat)
    requires s.Work? && CanAct(p, cancelled, queue, c, s.act) && TellsOf(Some(p), c, e, x) && AwaitsLiveOf(Some(p), c)
    requires Waits(p) && p.reply !in c.settled
    ensures var next := Acted(p, cancelled, queue, c, running, s.act);
            && TellsOf(PhaseAfter(next), next.core, Later(e, EndOf(Some(p), c, s, x)), x) && AwaitsLiveOf(PhaseAfter(next), next.core)
  {
    hide AsSet;
  }

  lemma OtherActKeepsTells(p: Phase, cancelled: bool, queue: seq<nat>, c: Core, running: bool, s: LineStep, e: Option<End>, x: nat)
    requires s.Work? && CanAct(p, cancelled, queue, c, s.act) && TellsOf(Some(p), c, e, x)
    requires !Waits(p)
    ensures var next := Acted(p, cancelled, queue, c, running, s.act);
            && TellsOf(PhaseAfter(next), next.core, Later(e, EndOf(Some(p), c, s, x)), x) && AwaitsLiveOf(PhaseAfter(next), next.core)
  {
    hide AsSet;
  }

  lemma ActKeepsTells(p: Phase, cancelled: bool, queue: seq<nat>, c: Core, running: bool, s: LineStep, e: Option<End>, x: nat)
    requires s.Work? && CanAct(p, cancelled, queue, c, s.act) && TellsOf(Some(p), c, e, x) && AwaitsLiveOf(Some(p), c)
    requires Waits(p) ==> p.reply !in c.settled
    ensures var next := Acted(p, cancelled, queue, c, running, s.act);
            && TellsOf(PhaseAfter(next), next.core, Later(e, EndOf(Some(p), c, s, x)), x) && AwaitsLiveOf(PhaseAfter(next), next.core)
  {
    hide TellsOf, EndOf, Acted, AwaitsLiveOf, CanAct;
    if Waits(p) {
      WaitKeepsTells(p, cancelled, queue, c, running, s, e, x);
    } else {
      OtherActKeepsTells(p, cancelled, queue, c, running, s, e, x);
    }
  }

  lemma WorkKeepsTells(v: View, running: bool, s: LineStep, e: Option<End>, x: nat)
    requires ViewOk(v) && ViewEnabled(v, s) && s.Work? && Tells(v, e, x) && AwaitsLive(v)
    ensures Tells(ViewNext(v, running, s), Later(e, EndAt(v, s, x)), x) && AwaitsLive(ViewNext(v, running, s))
  {
    if Waits(v.phase.value) {
      InFlightIsNotSettled(v);
    }
    ActKeepsTells(v.phase.value, v.cancelled, v.queue, v.core, running, s, e, x);
    LossTellsNothing(Acted(v.phase.value, v.cancelled, v.queue, v.core, running, s.act), Later(e, EndAt(v, s, x)), x);
    hide ViewOk, Acted, TellsOf, AwaitsLiveOf, EndOf, CanAct;
  }

  lemma LossTellsNothing(next: Effect, e: Option<End>, x: nat)
    ensures var c := next.core.(lost := next.core.lost + AsSet(next.queue));
            TellsOf(PhaseAfter(next), next.core, e, x) && AwaitsLiveOf(PhaseAfter(next), next.core)
            ==> TellsOf(PhaseAfter(next), c, e, x) && AwaitsLiveOf(PhaseAfter(next), c)
  {
  }

  lemma StepKeepsTells(v: View, running: bool, s: LineStep, e: Option<End>, x: nat)
    requires ViewOk(v) && ViewEnabled(v, s) && Tells(v, e, x) && AwaitsLive(v)
    ensures Tells(ViewNext(v, running, s), Later(e, EndAt(v, s, x)), x) && AwaitsLive(ViewNext(v, running, s))
  {
    if s.Work? {
      WorkKeepsTells(v, running, s, e, x);
      hide ViewNext;
    }
    hide ViewOk;
  }

  /** The end of frame `x` of request id `r` so far, read off the steps of a run. */
  ghost function EndOver<Req>(s: Client<Req>, steps: seq<Step<Req>>, r: Req, x: nat, e: Option<End>): Option<End>
    requires IsRun(s, steps)
    decreases |steps|
  {
    if steps == [] then e
    else
      var step := steps[0];
      var at := if step.OnLine? && step.req == r && OneWorker(LineOf(s, r)) then EndAt(ViewOf(LineOf(s, r)), step.step, x) else None;
      EndOver(After(s, step), steps[1..], r, x, Later(e, at))
  }

  lemma ClosingKeepsTells(l: Line, e: Option<End>, x: nat)
    requires OneWorker(l) && Tells(ViewOf(l), e, x) && AwaitsLive(ViewOf(l))
    ensures OneWorker(RejectPending(l)) && Tells(ViewOf(RejectPending(l)), e, x) && AwaitsLive(ViewOf(RejectPending(l)))
    ensures OneWorker(CancelWorker(l)) && Tells(ViewOf(CancelWorker(l)), e, x) && AwaitsLive(ViewOf(CancelWorker(l)))
  {
  }

  lemma ClientStepKeepsTells<Req(!new)>(s: Client<Req>, step: Step<Req>, r: Req, x: nat, e: Option<End>)
    requires ClientOk(s) && StepEnabled(s, step) && Tells(ViewOf(LineOf(s, r)), e, x) && AwaitsLive(ViewOf(LineOf(s, r)))
    ensures var at := if step.OnLine? && step.req == r then EndAt(ViewOf(LineOf(s, r)), step.step, x) else None;
            var l' := LineOf(After(s, step), r);
            OneWorker(l') && Tells(ViewOf(l'), Later(e, at), x) && AwaitsLive(ViewOf(l'))
  {
    hide Tells, AwaitsLive, Next, Enabled, OneWorker, ViewOk, EndAt, ViewOf, ViewNext, ViewEnabled;
    var l := LineOf(s, r);
    assert LineOk(l);
    if step.OnLine? && step.req == r {
      StepKeepsOneWorker(l, s.running, step.step);
      StepKeepsTells(ViewOf(l), s.running, step.step, e, x);
    } else {
      ClosingKeepsTells(l, e, x);
    }
  }

  lemma {:induction false} RunKeepsTells<Req(!new)>(s: Client<Req>, steps: seq<Step<Req>>, r: Req, x: nat, e: Option<End>)
    requires ClientOk(s) && IsRun(s, steps) && Tells(ViewOf(LineOf(s, r)), e, x) && AwaitsLive(ViewOf(LineOf(s, r)))
    ensures var l' := LineOf(RunOf(s, steps), r);
            OneWorker(l') && Tells(ViewOf(l'), EndOver(s, steps, r, x, e), x)
    decreases |steps|
  {
    hide Tells, AwaitsLive, StepEnabled, After, LineOf, OneWorker, ViewOf, EndAt;
    assert LineOk(LineOf(s, r));
    if steps != [] {
      var step := steps[0];
      ClientStepKeepsTells(s, step, r, x, e);
      StepKeepsOk(s, step);
      var at := if step.OnLine? && step.req == r then EndAt(ViewOf(LineOf(s, r)), step.step, x) else None;
      RunKeepsTells(After(s, step), steps[1..], r, x, Later(e, at));
    }
  }

  /** After every run of a new client, for every reply that its sender has not cancelled and that no worker
      is just reporting: it is completed exactly if the handling of its frame has ended without a
      cancellation of the worker, as acknowledged after an answer, as timed out without one, and as failed
      when the sending raised, the connection was lost or the report raised. */
  lemma ResultsAreExact<Req(!new)>(steps: seq<Step<Req>>, r: Req, x: nat)
    requires IsRun(Client(false, map[]), steps)
    ensures var l := LineOf(RunOf(Client(false, map[]), steps), r);
            var e := EndOver(Client(false, map[]), steps, r, x, None);
            && OneWorker(l)
            && (!BySender(l.core, x) && !Reports(ViewOf(l).phase, x) ==>
                  && (x in l.core.done <==> e.Some? && !e.value.Abandoned?)
                  && (x in l.core.done ==> l.core.done[x] == ResultOf(e.value)))
  {
    NewClientIsOk<Req>();
    var v := ViewOf(NEW_LINE);
    assert Tells(v, None, x) && AwaitsLive(v);
    assert LineOf(Client<Req>.Client(false, map[]), r) == NEW_LINE;
    RunKeepsTells(Client(false, map[]), steps, r, x, None);
    hide IsRun, RunOf, EndOver, ClientOk, OneWorker, ViewOf;
  }

  /** An ACK future is rejected exactly by a lost connection, while it is open and in the table. */
  lemma RejectedExactly<Req(!new)>(s: Client<Req>, step: Step<Req>, r: Req, x: nat)
    requires StepEnabled(s, step) && !WasRejected(LineOf(s, r).core, x)
    ensures var c := LineOf(s, r).core;
            WasRejected(LineOf(After(s, step), r).core, x)
            <==> step.ConnectionLost? && r in s.lines && c.pending == Some(x) && x in c.acks && c.acks[x].Open?
  {
    hide Next, Enabled, WasRejected;
    if step.OnLine? && step.req == r {
      LineStepRejectsNothing(LineOf(s, r), s.running, step.step, x);
    } else if r in s.lines {
      ClosingRejects(s.lines[r], x);
    }
  }

  lemma ClosingRejects(l: Line, x: nat)
    requires !WasRejected(l.core, x)
    ensures WasRejected(RejectPending(l).core, x) <==> l.core.pending == Some(x) && x in l.core.acks && l.core.acks[x].Open?
    ensures CancelWorker(l).core == l.core
  {
  }

  lemma LineStepRejectsNothing(l: Line, running: bool, s: LineStep, x: nat)
    requires Enabled(l, s) && !WasRejected(l.core, x)
    ensures !WasRejected(Next(l, running, s).core, x)
  {
    if s.Work? {
      var t := l.tasks[s.task];
      ActRejectsNothing(t.phase, t.cancelled, l.queues[WorksOn(l, s.task).value], l.core, running, s.act, x);
      hide CanAct, Acted;
    }
  }

  lemma ActRejectsNothing(p: Phase, cancelled: bool, queue: seq<nat>, c: Core, running: bool, a: Act, x: nat)
    requires CanAct(p, cancelled, queue, c, a) && !WasRejected(c, x)
    ensures !WasRejected(Acted(p, cancelled, queue, c, running, a).core, x)
  {
  }
}
