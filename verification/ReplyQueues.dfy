/** Serial reply queues of the WeCom WebSocket client, over every interleaving of senders, workers,
    acknowledgements, timeouts, lost connections and shutdowns.  One step is the code between two
    awaits.  All the client's tables are keyed by request id, so the state is one line per request
    id and the flag that the client is running. */
module ReplyQueues {
  import opened Wrappers

  datatype Result = Acknowledged | TimedOut | Failed | SenderCancelled

  datatype AckFuture = Open | Answered | Rejected | Dropped

  /** A worker that waits for its queue suspends only if it found it empty (`idle`). */
  datatype Phase =
    | NotStarted
    | Waiting(idle: bool)
    | Sending(reply: nat)
    | AwaitingAck(reply: nat)
    | Reporting(reply: nat, result: Result)
    | Ended

  /** Replies are numbered in the order they are queued, `sent` of them so far; `pending` is the
      reply whose ACK future is in the table.  `handed`, `settled` and `lost` are the history:
      frames given to the socket, frames whose wait ended, replies whose queue left the table. */
  datatype Core = Core(sent: nat, pending: Option<nat>, acks: map<nat, AckFuture>, done: map<nat, Result>,
                       handed: seq<nat>, settled: seq<nat>, lost: set<nat>)

  /** What a worker does between two awaits. */
  datatype Act =
    | Start
    | Get
    | IdleExit
    | SendDone
    | SendRaised
    | AckTimeout
    | Resume
    | Finish(raised: bool)
    | Leave

  /** The worker's next phase and queue, and whether it took its entry out of the tables. */
  datatype Effect = Effect(phase: Phase, queue: seq<nat>, core: Core, pops: bool)

  // ---- Futures and tables ----

  /** Complete a reply, unless it already is. */
  function Complete(c: Core, x: nat, result: Result): (c': Core)
    ensures c' == c.(done := c'.done)
  {
    if x in c.done then c else c.(done := c.done[x := result])
  }

  function Settle(c: Core, x: nat): Core {
    c.(settled := c.settled + [x])
  }

  /** Take the ACK future out of the table and complete it, unless it already is. */
  function Answer(c: Core, a: AckFuture): (c': Core)
    ensures c' == c.(pending := None, acks := c'.acks) && c'.acks.Keys == c.acks.Keys
  {
    if c.pending.None? then c
    else
      var x := c.pending.value;
      c.(pending := None, acks := if x in c.acks && c.acks[x].Open? then c.acks[x := a] else c.acks)
  }

  /** A wait that ends without an answer cancels the future it waits for. */
  function Drop(c: Core, p: Phase): (c': Core)
    ensures c' == c.(acks := c'.acks) && c'.acks.Keys == c.acks.Keys
  {
    if p.AwaitingAck? && p.reply in c.acks && c.acks[p.reply].Open? then c.(acks := c.acks[p.reply := Dropped]) else c
  }

  // ---- The worker ----

  predicate Waits(p: Phase) {
    p.Sending? || p.AwaitingAck?
  }

  /** A worker whose cancellation is pending does nothing more but leave.  The timeout of an idle wait
      can still strike when a reply has come in the meantime. */
  predicate CanAct(p: Phase, cancelled: bool, queue: seq<nat>, c: Core, a: Act) {
    && (a.Leave? <==> cancelled)
    && match a
       case Start => p.NotStarted?
       case Get => p.Waiting? && queue != []
       case IdleExit => p.Waiting? && p.idle
       case SendDone => p.Sending?
       case SendRaised => p.Sending?
       case AckTimeout => Waits(p)
       case Resume => p.AwaitingAck? && p.reply in c.acks && !c.acks[p.reply].Open?
       case Finish(_) => p.Reporting?
       case Leave => !p.Ended?
  }

  /** Back to the head of the worker's loop, and out of it when the client has stopped. */
  function Loop(running: bool, queue: seq<nat>, c: Core): Effect {
    if running then Effect(Waiting(queue == []), queue, c, false) else Effect(Ended, queue, c, true)
  }

  function Acted(p: Phase, cancelled: bool, queue: seq<nat>, c: Core, running: bool, a: Act): Effect
    requires CanAct(p, cancelled, queue, c, a)
  {
    match a
    case Start => Loop(running, queue, c)
    case Get =>
      var x := queue[0];
      Effect(Sending(x), queue[1..], c.(pending := Some(x), acks := c.acks[x := Open], handed := c.handed + [x]), false)
    case IdleExit => Effect(Ended, queue, c, true)
    case SendDone => Effect(AwaitingAck(p.reply), queue, c, false)
    case SendRaised => Loop(running, queue, Complete(Settle(c, p.reply), p.reply, Failed))
    case AckTimeout => Effect(Reporting(p.reply, TimedOut), queue, Settle(Drop(c, p), p.reply).(pending := None), false)
    case Resume =>
      if c.acks[p.reply].Answered? then Effect(Reporting(p.reply, Acknowledged), queue, Settle(c, p.reply), false)
      else Loop(running, queue, Complete(Settle(c, p.reply), p.reply, Failed))
    case Finish(raised) => Loop(running, queue, Complete(c, p.reply, if raised then Failed else p.result))
    case Leave =>
      // A task cancelled before its first step never reaches its clean-up.
      Effect(Ended, queue, if Waits(p) then Settle(Drop(c, p), p.reply) else c, !p.NotStarted?)
  }

  // ---- One line: the tables under one request id ----

  /** A worker task, the queue it read from the table when it started, and whether it was cancelled. */
  datatype Task = Task(queue: nat, phase: Phase, cancelled: bool)

  /** `entry` numbers the queue and the worker in the tables; both outlive their entry. */
  datatype Line = Line(entry: Option<nat>, queues: seq<seq<nat>>, tasks: seq<Task>, core: Core)

  /** `Ack` names the frame that the server acknowledges; what it does depends on the table alone. */
  datatype LineStep = Send | Ack(frame: nat) | CancelReply(reply: nat) | Work(task: nat, act: Act)

  const NEW_LINE := Line(None, [], [], Core(0, None, map[], map[], [], [], {}))

  /** The queue a worker works on: the one it read, or before its start the one it would read. */
  function WorksOn(l: Line, t: nat): Option<nat>
    requires t < |l.tasks|
  {
    if l.tasks[t].phase.NotStarted? then l.entry else Some(l.tasks[t].queue)
  }

  predicate Enabled(l: Line, s: LineStep) {
    match s
    case Send => l.entry.Some? ==> l.entry.value < |l.queues|
    case Ack(_) => true
    case CancelReply(x) => x < l.core.sent
    case Work(t, a) =>
      && t < |l.tasks| && WorksOn(l, t).Some? && WorksOn(l, t).value < |l.queues|
      && CanAct(l.tasks[t].phase, l.tasks[t].cancelled, l.queues[WorksOn(l, t).value], l.core, a)
  }

  function Next(l: Line, running: bool, s: LineStep): Line
    requires Enabled(l, s)
  {
    match s
    case Send =>
      var core := l.core.(sent := l.core.sent + 1);
      if l.entry.None? then
        l.(entry := Some(|l.queues|), queues := l.queues + [[l.core.sent]], tasks := l.tasks + [Task(0, NotStarted, false)], core := core)
      else
        l.(queues := l.queues[l.entry.value := l.queues[l.entry.value] + [l.core.sent]], core := core)
    case Ack(_) => l.(core := Answer(l.core, Answered))
    case CancelReply(x) => l.(core := Complete(l.core, x, SenderCancelled))
    case Work(t, a) =>
      var q := WorksOn(l, t).value;
      var e := Acted(l.tasks[t].phase, l.tasks[t].cancelled, l.queues[q], l.core, running, a);
      var l' := l.(queues := l.queues[q := e.queue], tasks := l.tasks[t := Task(q, e.phase, l.tasks[t].cancelled)], core := e.core);
      if e.pops then Pop(l') else l'
  }

  /** Whatever is in the tables goes. */
  function Pop(l: Line): Line {
    if l.entry.Some? && l.entry.value < |l.queues| then
      l.(entry := None, core := l.core.(lost := l.core.lost + AsSet(l.queues[l.entry.value])))
    else l.(entry := None)
  }

  function AsSet(s: seq<nat>): set<nat> {
    set x | x in s
  }

  /** The connection is lost. */
  function RejectPending(l: Line): Line {
    l.(core := Answer(l.core, Rejected))
  }

  /** Shutdown cancels the worker in the table. */
  function CancelWorker(l: Line): Line {
    if l.entry.Some? && l.entry.value < |l.tasks| then
      l.(tasks := l.tasks[l.entry.value := l.tasks[l.entry.value].(cancelled := true)])
    else l
  }

  // ---- A line has one worker ----

  /** The only live worker is the one in the table, on the queue in the table. */
  ghost predicate OneWorker(l: Line) {
    && |l.queues| == |l.tasks|
    && (l.entry.Some? ==> l.entry.value < |l.tasks|)
    && (forall t: nat | t < |l.tasks| && !l.tasks[t].phase.Ended? ::
          l.entry == Some(t) && (l.tasks[t].phase.NotStarted? || l.tasks[t].queue == t))
  }

  /** A line as its one worker sees it: no phase at all without an entry in the tables. */
  datatype View = View(phase: Option<Phase>, cancelled: bool, queue: seq<nat>, core: Core)

  function ViewOf(l: Line): View
    requires OneWorker(l)
  {
    if l.entry.None? then View(None, false, [], l.core)
    else
      var t := l.tasks[l.entry.value];
      View(Some(t.phase), t.cancelled, l.queues[l.entry.value], l.core)
  }

  function ViewNext(v: View, running: bool, s: LineStep): View {
    match s
    case Send =>
      var core := v.core.(sent := v.core.sent + 1);
      if v.phase.None? then View(Some(NotStarted), false, [v.core.sent], core)
      else v.(queue := v.queue + [v.core.sent], core := core)
    case Ack(_) => v.(core := Answer(v.core, Answered))
    case CancelReply(x) => v.(core := Complete(v.core, x, SenderCancelled))
    case Work(_, a) =>
      if v.phase.Some? && CanAct(v.phase.value, v.cancelled, v.queue, v.core, a) then
        var e := Acted(v.phase.value, v.cancelled, v.queue, v.core, running, a);
        if e.pops then View(None, false, [], e.core.(lost := e.core.lost + AsSet(e.queue)))
        else View(Some(e.phase), v.cancelled, e.queue, e.core)
      else v
  }

  ghost predicate ViewEnabled(v: View, s: LineStep) {
    match s
    case Send => true
    case Ack(_) => true
    case CancelReply(x) => x < v.core.sent
    case Work(_, a) => v.phase.Some? && CanAct(v.phase.value, v.cancelled, v.queue, v.core, a)
  }

  lemma WorkerIsTheOne(l: Line, t: nat, a: Act)
    requires OneWorker(l) && Enabled(l, Work(t, a))
    ensures l.entry == Some(t) && WorksOn(l, t) == Some(t)
  {
  }

  lemma EffectEnds(p: Phase, cancelled: bool, queue: seq<nat>, c: Core, running: bool, a: Act)
    requires CanAct(p, cancelled, queue, c, a)
    ensures var e := Acted(p, cancelled, queue, c, running, a); (e.pops ==> e.phase.Ended?) && !e.phase.NotStarted?
  {
  }

  /** Every step keeps at most one live worker, and is a step of that worker. */
  lemma StepKeepsOneWorker(l: Line, running: bool, s: LineStep)
    requires OneWorker(l) && Enabled(l, s)
    ensures OneWorker(Next(l, running, s)) && ViewEnabled(ViewOf(l), s)
    ensures ViewOf(Next(l, running, s)) == ViewNext(ViewOf(l), running, s)
  {
    hide Complete, Answer;
    if s.Work? {
      WorkerIsTheOne(l, s.task, s.act);
      var t := l.tasks[s.task];
      EffectEnds(t.phase, t.cancelled, l.queues[s.task], l.core, running, s.act);
      hide CanAct, Acted;
    }
  }

  // ---- What every line keeps ----

  function InFlight(p: Option<Phase>): seq<nat> {
    if p.Some? && Waits(p.value) then [p.value.reply] else []
  }

  ghost predicate Increasing(s: seq<nat>) {
    forall i, j | 0 <= i < j < |s| :: s[i] < s[j]
  }

  /** Frames are handed over in the order of queueing. */
  ghost predicate Ordered(handed: seq<nat>, queue: seq<nat>, sent: nat) {
    Increasing(handed + queue) && forall x | x in handed + queue :: x < sent
  }

  /** The wait for each frame has ended, but for the one in flight, which is the last. */
  ghost predicate OneInFlight(p: Option<Phase>, c: Core) {
    c.handed == c.settled + InFlight(p)
  }

  /** An ACK future that is open and waited for is the one the next ACK goes to. */
  ghost predicate AcksRouted(p: Option<Phase>, c: Core) {
    && (forall x | x in c.acks :: x in c.handed)
    && (forall x | x in InFlight(p) :: x in c.acks && (c.acks[x].Open? ==> c.pending == Some(x)))
  }

  ghost predicate WasAnswered(c: Core, x: nat) {
    x in c.acks && c.acks[x].Answered?
  }

  /** A reply reported as acknowledged was. */
  ghost predicate AcksTrue(p: Option<Phase>, c: Core) {
    && (forall x | x in c.done && c.done[x].Acknowledged? :: WasAnswered(c, x))
    && (p.Some? && p.value.Reporting? && p.value.result.Acknowledged? ==> WasAnswered(c, p.value.reply))
  }

  /** Every reply is handed over, queued or lost, and a lost one is never handed over. */
  ghost predicate Accounted(queue: seq<nat>, c: Core) {
    && (forall x: nat | x < c.sent :: x in c.handed || x in queue || x in c.lost)
    && (forall x | x in c.lost :: x < c.sent && x !in c.handed && x !in queue)
  }

  /** Only the sender's own cancellation completes a reply that was never handed over. */
  ghost predicate DoneHanded(p: Option<Phase>, c: Core) {
    && (forall x | x in c.done && !c.done[x].SenderCancelled? :: x in c.handed)
    && (p.Some? && p.value.Reporting? ==> p.value.reply in c.handed)
  }

  ghost predicate ViewOk(v: View) {
    && (v.phase.None? ==> v.queue == [])
    && Ordered(v.core.handed, v.queue, v.core.sent) && OneInFlight(v.phase, v.core) && DoneHanded(v.phase, v.core)
    && AcksRouted(v.phase, v.core) && AcksTrue(v.phase, v.core) && Accounted(v.queue, v.core)
  }

  lemma QueueingKeepsOrder(handed: seq<nat>, queue: seq<nat>, sent: nat)
    requires Ordered(handed, queue, sent)
    ensures Ordered(handed, queue + [sent], sent + 1) && Ordered(handed, [], sent)
  {
    var all := handed + queue;
    assert handed + (queue + [sent]) == all + [sent];
    forall x | x in all + [sent] ensures x < sent + 1 {
      assert x in all || x == sent;
    }
    forall i, j | 0 <= i < j < |all + [sent]| ensures (all + [sent])[i] < (all + [sent])[j] {
      assert all[i] in all;
    }
    assert handed + [] == all[..|handed|];
    forall x | x in handed + [] ensures x < sent {
      assert x in all;
    }
  }

  lemma HandingKeepsOrder(handed: seq<nat>, queue: seq<nat>, sent: nat)
    requires Ordered(handed, queue, sent) && queue != []
    ensures Ordered(handed + [queue[0]], queue[1..], sent) && queue[0] !in handed && queue[0] !in queue[1..] && queue[0] < sent
  {
    var all := handed + queue;
    assert handed + [queue[0]] + queue[1..] == all;
    assert all[|handed|] == queue[0] && queue[0] in all;
    forall i | 0 <= i < |handed| ensures handed[i] < queue[0] {
      assert all[i] == handed[i];
    }
    forall i | 1 <= i < |queue| ensures queue[0] < queue[i] {
      assert all[|handed| + i] == queue[i];
    }
  }

  function PhaseAfter(e: Effect): Option<Phase> {
    if e.pops then None else Some(e.phase)
  }

  lemma ActKeepsOrder(p: Phase, cancelled: bool, queue: seq<nat>, c: Core, running: bool, a: Act)
    requires CanAct(p, cancelled, queue, c, a) && Ordered(c.handed, queue, c.sent) && OneInFlight(Some(p), c)
    ensures var e := Acted(p, cancelled, queue, c, running, a);
            Ordered(e.core.handed, e.queue, e.core.sent) && OneInFlight(PhaseAfter(e), e.core)
  {
    if queue != [] {
      HandingKeepsOrder(c.handed, queue, c.sent);
    }
    hide Complete, Ordered;
  }

  lemma ActKeepsRouting(p: Phase, cancelled: bool, queue: seq<nat>, c: Core, running: bool, a: Act)
    requires CanAct(p, cancelled, queue, c, a) && Ordered(c.handed, queue, c.sent) && AcksRouted(Some(p), c)
    ensures var e := Acted(p, cancelled, queue, c, running, a); AcksRouted(PhaseAfter(e), e.core)
  {
    hide Complete, Ordered;
  }

  lemma ActKeepsTruth(p: Phase, cancelled: bool, queue: seq<nat>, c: Core, running: bool, a: Act)
    requires CanAct(p, cancelled, queue, c, a) && Ordered(c.handed, queue, c.sent) && AcksRouted(Some(p), c)
    requires AcksTrue(Some(p), c)
    ensures var e := Acted(p, cancelled, queue, c, running, a); AcksTrue(PhaseAfter(e), e.core)
  {
    if queue != [] {
      HandingKeepsOrder(c.handed, queue, c.sent);
    }
    hide Ordered;
  }

  lemma ActKeepsAccount(p: Phase, cancelled: bool, queue: seq<nat>, c: Core, running: bool, a: Act)
    requires CanAct(p, cancelled, queue, c, a) && Ordered(c.handed, queue, c.sent) && Accounted(queue, c)
    ensures var e := Acted(p, cancelled, queue, c, running, a); Accounted(e.queue, e.core)
  {
    if queue != [] {
      HandingKeepsOrder(c.handed, queue, c.sent);
    }
    hide Ordered, Complete;
  }

  lemma ActKeepsHanded(p: Phase, cancelled: bool, queue: seq<nat>, c: Core, running: bool, a: Act)
    requires CanAct(p, cancelled, queue, c, a) && OneInFlight(Some(p), c) && DoneHanded(Some(p), c)
    ensures var e := Acted(p, cancelled, queue, c, running, a); DoneHanded(PhaseAfter(e), e.core)
  {
    if Waits(p) {
      assert InFlight(Some(p))[0] == p.reply && c.handed[|c.settled|] == p.reply;
    }
  }

  /** Leaving the tables loses exactly what is still queued. */
  lemma PoppingKeepsOk(queue: seq<nat>, c: Core)
    requires Ordered(c.handed, queue, c.sent) && OneInFlight(None, c) && DoneHanded(None, c)
    requires AcksRouted(None, c) && AcksTrue(None, c) && Accounted(queue, c)
    ensures ViewOk(View(None, false, [], c.(lost := c.lost + AsSet(queue))))
  {
    QueueingKeepsOrder(c.handed, queue, c.sent);
    assert Accounted([], c.(lost := c.lost + AsSet(queue))) by {
      forall x | x in queue ensures x < c.sent && x !in c.handed {
        var i :| 0 <= i < |queue| && queue[i] == x;
        var all := c.handed + queue;
        assert all[|c.handed| + i] == x && x in all;
        forall j | 0 <= j < |c.handed| ensures c.handed[j] != x {
          assert all[j] == c.handed[j];
        }
      }
    }
    hide Ordered;
  }

  lemma ViewWorkKeepsOk(v: View, running: bool, s: LineStep)
    requires ViewOk(v) && ViewEnabled(v, s) && s.Work?
    ensures ViewOk(ViewNext(v, running, s))
  {
    var p := v.phase.value;
    ActKeepsOrder(p, v.cancelled, v.queue, v.core, running, s.act);
    ActKeepsRouting(p, v.cancelled, v.queue, v.core, running, s.act);
    ActKeepsTruth(p, v.cancelled, v.queue, v.core, running, s.act);
    ActKeepsAccount(p, v.cancelled, v.queue, v.core, running, s.act);
    ActKeepsHanded(p, v.cancelled, v.queue, v.core, running, s.act);
    var e := Acted(p, v.cancelled, v.queue, v.core, running, s.act);
    if e.pops {
      PoppingKeepsOk(e.queue, e.core);
    }
    hide CanAct, Acted, Ordered, OneInFlight, DoneHanded, AcksRouted, AcksTrue, Accounted;
  }

  lemma ViewSendKeepsOk(v: View, running: bool)
    requires ViewOk(v)
    ensures ViewOk(ViewNext(v, running, Send))
  {
    QueueingKeepsOrder(v.core.handed, v.queue, v.core.sent);
    assert [] + [v.core.sent] == [v.core.sent];
    hide Ordered, WasAnswered;
  }

  lemma ViewStepKeepsOk(v: View, running: bool, s: LineStep)
    requires ViewOk(v) && ViewEnabled(v, s)
    ensures ViewOk(ViewNext(v, running, s))
  {
    if s.Work? {
      ViewWorkKeepsOk(v, running, s);
      hide ViewOk, ViewNext;
    } else if s.Send? {
      ViewSendKeepsOk(v, running);
      hide ViewOk, ViewNext;
    } else {
      hide Ordered, Accounted;
      assert Accounted(v.queue, ViewNext(v, running, s).core);
    }
  }

  /** The loss of the connection and a shutdown, as the view sees them. */
  lemma ClosingKeepsOk(l: Line)
    requires OneWorker(l) && ViewOk(ViewOf(l))
    ensures OneWorker(RejectPending(l)) && ViewOk(ViewOf(RejectPending(l)))
    ensures OneWorker(CancelWorker(l)) && ViewOk(ViewOf(CancelWorker(l)))
  {
    hide Ordered;
  }

  // ---- The client ----

  datatype Client<Req> = Client(running: bool, lines: map<Req, Line>)

  datatype Step<Req> = Connect | Disconnect | ConnectionLost | OnLine(req: Req, step: LineStep)

  function LineOf<Req>(s: Client<Req>, r: Req): Line {
    if r in s.lines then s.lines[r] else NEW_LINE
  }

  predicate StepEnabled<Req>(s: Client<Req>, step: Step<Req>) {
    step.OnLine? ==> Enabled(LineOf(s, step.req), step.step)
  }

  function After<Req>(s: Client<Req>, step: Step<Req>): Client<Req>
    requires StepEnabled(s, step)
  {
    match step
    case Connect => s.(running := true)
    case Disconnect => Client(false, map r | r in s.lines :: CancelWorker(s.lines[r]))
    case ConnectionLost => s.(lines := map r | r in s.lines :: RejectPending(s.lines[r]))
    case OnLine(r, ls) => s.(lines := s.lines[r := Next(LineOf(s, r), s.running, ls)])
  }

  ghost predicate LineOk(l: Line) {
    OneWorker(l) && ViewOk(ViewOf(l))
  }

  ghost predicate ClientOk<Req(!new)>(s: Client<Req>) {
    forall r: Req :: LineOk(LineOf(s, r))
  }

  lemma StepKeepsOk<Req(!new)>(s: Client<Req>, step: Step<Req>)
    requires ClientOk(s) && StepEnabled(s, step)
    ensures ClientOk(After(s, step))
  {
    var s' := After(s, step);
    forall r: Req ensures LineOk(LineOf(s', r)) {
      assert LineOk(LineOf(s, r));
      if step.OnLine? && step.req == r {
        StepKeepsOneWorker(LineOf(s, r), s.running, step.step);
        ViewStepKeepsOk(ViewOf(LineOf(s, r)), s.running, step.step);
      } else if r in s.lines {
        ClosingKeepsOk(s.lines[r]);
      }
      hide OneWorker, ViewOk, Next, Enabled;
    }
  }

  ghost predicate IsRun<Req>(s: Client<Req>, steps: seq<Step<Req>>)
    decreases |steps|
  {
    steps != [] ==> StepEnabled(s, steps[0]) && IsRun(After(s, steps[0]), steps[1..])
  }

  ghost function RunOf<Req>(s: Client<Req>, steps: seq<Step<Req>>): Client<Req>
    requires IsRun(s, steps)
    decreases |steps|
  {
    if steps == [] then s else RunOf(After(s, steps[0]), steps[1..])
  }

  /** In every reachable state, under every request id: one worker at most; frames handed over in
      queueing order, each after the last one's wait; the awaited ACK future in the table; every
      reply accounted for. */
  lemma {:induction false} RunKeepsOk<Req(!new)>(s: Client<Req>, steps: seq<Step<Req>>)
    requires ClientOk(s) && IsRun(s, steps)
    ensures ClientOk(RunOf(s, steps))
    decreases |steps|
  {
    if steps != [] {
      StepKeepsOk(s, steps[0]);
      RunKeepsOk(After(s, steps[0]), steps[1..]);
    }
  }

  lemma NewClientIsOk<Req(!new)>()
    ensures ClientOk<Req>(Client(false, map[]))
  {
    assert ViewOk(ViewOf(NEW_LINE));
  }

  /** So it holds after every run of a new client. */
  lemma EveryRunIsOk<Req(!new)>(steps: seq<Step<Req>>)
    requires IsRun(Client(false, map[]), steps)
    ensures ClientOk(RunOf(Client(false, map[]), steps))
  {
    NewClientIsOk<Req>();
    RunKeepsOk(Client(false, map[]), steps);
  }

  // ---- History only grows ----

  ghost predicate Grows(c: Core, c': Core) {
    && c.handed <= c'.handed && c.settled <= c'.settled && c.sent <= c'.sent && c.lost <= c'.lost
    && forall x | x in c.done :: x in c'.done && c'.done[x] == c.done[x]
  }

  lemma ActGrows(p: Phase, cancelled: bool, queue: seq<nat>, c: Core, running: bool, a: Act)
    requires CanAct(p, cancelled, queue, c, a)
    ensures Grows(c, Acted(p, cancelled, queue, c, running, a).core)
  {
  }

  /** Each reply completes at most once: no step changes how a completed one was completed. */
  lemma StepGrows(l: Line, running: bool, s: LineStep)
    requires OneWorker(l) && Enabled(l, s)
    ensures Grows(l.core, Next(l, running, s).core)
  {
    if s.Work? {
      var t := l.tasks[s.task];
      ActGrows(t.phase, t.cancelled, l.queues[WorksOn(l, s.task).value], l.core, running, s.act);
      hide CanAct, Acted, OneWorker;
    }
  }

  lemma ClosingGrows(l: Line)
    ensures Grows(l.core, RejectPending(l).core) && Grows(l.core, CancelWorker(l).core)
  {
  }

  lemma GrowsTransitively(a: Core, b: Core, c: Core)
    requires Grows(a, b) && Grows(b, c)
    ensures Grows(a, c)
  {
  }

  /** Over whole runs, with lost connections and shutdowns: what was handed over, settled, lost or
      completed stays so, and each reply completes at most once. */
  lemma {:induction false} RunGrows<Req(!new)>(s: Client<Req>, steps: seq<Step<Req>>, r: Req)
    requires ClientOk(s) && IsRun(s, steps)
    ensures Grows(LineOf(s, r).core, LineOf(RunOf(s, steps), r).core)
    decreases |steps|
  {
    if steps != [] {
      hide LineOf, After, Grows, ClientOk;
      var s' := After(s, steps[0]);
      GrowsInStep(s, steps[0], r);
      StepKeepsOk(s, steps[0]);
      RunGrows(s', steps[1..], r);
      GrowsTransitively(LineOf(s, r).core, LineOf(s', r).core, LineOf(RunOf(s, steps), r).core);
    } else {
      assert Grows(LineOf(s, r).core, LineOf(s, r).core);
    }
  }

  lemma GrowsInStep<Req(!new)>(s: Client<Req>, step: Step<Req>, r: Req)
    requires ClientOk(s) && StepEnabled(s, step)
    ensures Grows(LineOf(s, r).core, LineOf(After(s, step), r).core)
  {
    assert LineOk(LineOf(s, r));
    if step.OnLine? && step.req == r {
      StepGrows(LineOf(s, r), s.running, step.step);
    } else {
      ClosingGrows(LineOf(s, r));
    }
    hide Next, Enabled, Grows;
  }

  /** A lost reply is never handed over in any later run, and completes only if its sender cancels it. */
  lemma LostStaysUndelivered<Req(!new)>(s: Client<Req>, steps: seq<Step<Req>>, r: Req, x: nat)
    requires ClientOk(s) && IsRun(s, steps) && x in LineOf(s, r).core.lost
    ensures var c := LineOf(RunOf(s, steps), r).core;
            x in c.lost && x !in c.handed && (x in c.done ==> c.done[x].SenderCancelled?)
  {
    RunGrows(s, steps, r);
    RunKeepsOk(s, steps);
    var l := LineOf(RunOf(s, steps), r);
    assert LineOk(l);
    assert Accounted(ViewOf(l).queue, l.core) && DoneHanded(ViewOf(l).phase, l.core);
    hide RunOf, IsRun;
  }

  // ---- Which frame an acknowledgement is taken for ----

  /** The future of frame `x` gets its answer from this acknowledgement. */
  ghost predicate Answers(l: Line, running: bool, frame: nat, x: nat) {
    !WasAnswered(l.core, x) && WasAnswered(Next(l, running, Ack(frame)).core, x)
  }

  /** An acknowledgement answers the future that is in the table and open, whichever frame it is
      for: its own frame exactly when that one is in the table, and else another frame or none. */
  lemma AckAnswersExactly(l: Line, running: bool, frame: nat, x: nat)
    requires LineOk(l)
    ensures Answers(l, running, frame, x) <==> l.core.pending == Some(x) && x in l.core.acks && l.core.acks[x].Open?
    ensures x in l.core.acks && l.core.acks[x].Open? ==> (Answers(l, running, x, x) <==> l.core.pending == Some(x))
    ensures Next(l, running, Ack(frame)).core.pending == None
  {
  }

  /** A frame that a worker waits for is answered by its own acknowledgement, and by that of any other. */
  lemma AwaitedFrameIsAnswered(l: Line, running: bool, frame: nat, x: nat)
    requires LineOk(l) && l.entry.Some? && x in InFlight(Some(l.tasks[l.entry.value].phase))
    requires x in l.core.acks && l.core.acks[x].Open?
    ensures Answers(l, running, frame, x)
  {
    assert AcksRouted(ViewOf(l).phase, l.core);
    AckAnswersExactly(l, running, frame, x);
    hide Answers, ViewOk;
  }

  // ---- Runs that show a failure ----

  const IDLE: Client<nat> := Client(false, map[])

  /** A state of some run from the client as it is created. */
  ghost predicate Reachable(s: Client<nat>) {
    exists steps :: IsRun(IDLE, steps) && RunOf(IDLE, steps) == s
  }

  lemma {:induction false} RunThen<Req>(s: Client<Req>, steps: seq<Step<Req>>, step: Step<Req>)
    requires IsRun(s, steps) && StepEnabled(RunOf(s, steps), step)
    ensures IsRun(s, steps + [step]) && RunOf(s, steps + [step]) == After(RunOf(s, steps), step)
    decreases |steps|
  {
    if steps == [] {
      assert [step][1..] == [] && steps + [step] == [step];
    } else {
      assert (steps + [step])[1..] == steps[1..] + [step];
      RunThen(After(s, steps[0]), steps[1..], step);
    }
  }

  lemma ReachableThen(s: Client<nat>, step: Step<nat>)
    requires Reachable(s) && StepEnabled(s, step)
    ensures Reachable(After(s, step))
  {
    var steps :| IsRun(IDLE, steps) && RunOf(IDLE, steps) == s;
    RunThen(IDLE, steps, step);
    hide IsRun, RunOf;
  }

  /** The first queue and worker under request id 0. */
  function FirstLine(phase: Phase, cancelled: bool, queue: seq<nat>, core: Core): Line {
    Line(Some(0), [queue], [Task(0, phase, cancelled)], core)
  }

  function OneLine(running: bool, l: Line): Client<nat> {
    Client(running, map[0 := l])
  }

  lemma ReachableByWork(p: Phase, queue: seq<nat>, c: Core, a: Act, p': Phase, queue': seq<nat>, c': Core)
    requires Reachable(OneLine(true, FirstLine(p, false, queue, c))) && CanAct(p, false, queue, c, a)
    requires Acted(p, false, queue, c, true, a) == Effect(p', queue', c', false)
    ensures Reachable(OneLine(true, FirstLine(p', false, queue', c')))
  {
    var l := FirstLine(p, false, queue, c);
    hide Acted, CanAct, Reachable;
    assert WorksOn(l, 0) == Some(0) && Enabled(l, Work(0, a));
    ReachableThen(OneLine(true, l), OnLine(0, Work(0, a)));
    assert Next(l, true, Work(0, a)) == FirstLine(p', false, queue', c');
    assert (map[0 := l])[0 := FirstLine(p', false, queue', c')] == map[0 := FirstLine(p', false, queue', c')];
  }

  lemma FirstReplyReachable()
    ensures Reachable(OneLine(true, FirstLine(NotStarted, false, [0], Core(1, None, map[], map[], [], [], {}))))
  {
    assert IsRun(IDLE, []) && RunOf(IDLE, []) == IDLE;
    ReachableThen(IDLE, Connect);
    hide Reachable;
    ReachableThen(Client(true, map[]), OnLine(0, Send));
    assert Next(NEW_LINE, true, Send) == FirstLine(NotStarted, false, [0], Core(1, None, map[], map[], [], [], {}));
  }

  lemma SecondReplyReachable()
    ensures Reachable(OneLine(true, FirstLine(NotStarted, false, [0, 1], Core(2, None, map[], map[], [], [], {}))))
  {
    FirstReplyReachable();
    var l := FirstLine(NotStarted, false, [0], Core(1, None, map[], map[], [], [], {}));
    hide Reachable;
    ReachableThen(OneLine(true, l), OnLine(0, Send));
    var l' := FirstLine(NotStarted, false, [0, 1], Core(2, None, map[], map[], [], [], {}));
    var both := [0] + [1];
    assert both == [0, 1];
    assert [[0]][0 := both] == [both];
    assert Next(l, true, Send) == l';
    assert (map[0 := l])[0 := l'] == map[0 := l'];
  }

  /** Frame 0 has timed out and frame 1 is out. */
  const SECOND_OUT := FirstLine(Sending(1), false, [],
                                Core(2, Some(1), map[0 := Dropped, 1 := Open], map[0 := TimedOut], [0, 1], [0], {}))

  lemma FirstOutReachable()
    ensures Reachable(OneLine(true, FirstLine(AwaitingAck(0), false, [1], Core(2, Some(0), map[0 := Open], map[], [0], [], {}))))
  {
    SecondReplyReachable();
    hide Reachable;
    var acks, none := map[0 := AckFuture.Open], map[];
    ReachableByWork(NotStarted, [0, 1], Core(2, None, none, map[], [], [], {}), Start,
                    Waiting(false), [0, 1], Core(2, None, none, map[], [], [], {}));
    assert [0, 1][1..] == [1];
    ReachableByWork(Waiting(false), [0, 1], Core(2, None, none, map[], [], [], {}), Get,
                    Sending(0), [1], Core(2, Some(0), acks, map[], [0], [], {}));
    ReachableByWork(Sending(0), [1], Core(2, Some(0), acks, map[], [0], [], {}), SendDone,
                    AwaitingAck(0), [1], Core(2, Some(0), acks, map[], [0], [], {}));
  }

  lemma SecondOutReachable()
    ensures Reachable(OneLine(true, SECOND_OUT))
  {
    FirstOutReachable();
    hide Reachable;
    assert [1][1..] == [];
    var acks := map[0 := AckFuture.Open];
    var late := map[0 := Dropped];
    ReachableByWork(AwaitingAck(0), [1], Core(2, Some(0), acks, map[], [0], [], {}), AckTimeout,
                    Reporting(0, TimedOut), [1], Core(2, None, late, map[], [0], [0], {}));
    ReachableByWork(Reporting(0, TimedOut), [1], Core(2, None, late, map[], [0], [0], {}), Finish(false),
                    Waiting(false), [1], Core(2, None, late, map[0 := TimedOut], [0], [0], {}));
    ReachableByWork(Waiting(false), [1], Core(2, None, late, map[0 := TimedOut], [0], [0], {}), Get,
                    Sending(1), [], SECOND_OUT.core);
  }

  /** A run after which an acknowledgement of frame 0, late for its timeout, is taken for that of
      frame 1: the table knows request ids only. */
  lemma LateAckAnswersNextFrame()
    ensures Reachable(OneLine(true, SECOND_OUT)) && SECOND_OUT.core.done == map[0 := TimedOut]
    ensures Answers(SECOND_OUT, true, 0, 1) && !Answers(SECOND_OUT, true, 0, 0)
  {
    SecondOutReachable();
  }

  /** When the worker takes its entry out of the tables. */
  predicate TakesEntryOut(p: Phase, c: Core, running: bool, a: Act)
    requires a.Resume? ==> p.AwaitingAck? && p.reply in c.acks
  {
    || a.IdleExit?
    || (a.Leave? && !p.NotStarted?)
    || (!running && (a.Start? || a.SendRaised? || a.Finish? || (a.Resume? && !c.acks[p.reply].Answered?)))
  }

  /** Replies are lost exactly when their queue is taken out of the tables with them still in it. */
  lemma RepliesAreLostExactly(l: Line, running: bool, s: LineStep, x: nat)
    requires OneWorker(l) && Enabled(l, s)
    ensures x in Next(l, running, s).core.lost <==>
              || x in l.core.lost
              || (s.Work? && x in l.queues[l.entry.value] && TakesEntryOut(l.tasks[s.task].phase, l.core, running, s.act))
  {
    if s.Work? {
      WorkerIsTheOne(l, s.task, s.act);
      ActTakesEntryOut(l.tasks[s.task].phase, l.tasks[s.task].cancelled, l.queues[s.task], l.core, running, s.act);
      hide CanAct, Acted;
    }
  }

  lemma ActTakesEntryOut(p: Phase, cancelled: bool, queue: seq<nat>, c: Core, running: bool, a: Act)
    requires CanAct(p, cancelled, queue, c, a)
    ensures var e := Acted(p, cancelled, queue, c, running, a);
            e.core.lost == c.lost && (e.pops <==> TakesEntryOut(p, c, running, a)) && (e.pops ==> e.queue == queue)
  {
  }

  lemma FirstReplyDone()
    ensures Reachable(OneLine(true, FirstLine(Waiting(true), false, [],
                                              Core(1, None, map[0 := Answered], map[0 := Acknowledged], [0], [0], {}))))
  {
    FirstReplyReachable();
    hide Reachable;
    var acks, acked := map[0 := AckFuture.Open], map[0 := Answered];
    ReachableByWork(NotStarted, [0], Core(1, None, map[], map[], [], [], {}), Start,
                    Waiting(false), [0], Core(1, None, map[], map[], [], [], {}));
    assert [0][1..] == [];
    ReachableByWork(Waiting(false), [0], Core(1, None, map[], map[], [], [], {}), Get,
                    Sending(0), [], Core(1, Some(0), acks, map[], [0], [], {}));
    ReachableByWork(Sending(0), [], Core(1, Some(0), acks, map[], [0], [], {}), SendDone,
                    AwaitingAck(0), [], Core(1, Some(0), acks, map[], [0], [], {}));
    FirstAckReachable();
    ReachableByWork(AwaitingAck(0), [], Core(1, None, acked, map[], [0], [], {}), Resume,
                    Reporting(0, Acknowledged), [], Core(1, None, acked, map[], [0], [0], {}));
    ReachableByWork(Reporting(0, Acknowledged), [], Core(1, None, acked, map[], [0], [0], {}), Finish(false),
                    Waiting(true), [], Core(1, None, acked, map[0 := Acknowledged], [0], [0], {}));
  }

  lemma FirstAckReachable()
    requires Reachable(OneLine(true, FirstLine(AwaitingAck(0), false, [], Core(1, Some(0), map[0 := Open], map[], [0], [], {}))))
    ensures Reachable(OneLine(true, FirstLine(AwaitingAck(0), false, [], Core(1, None, map[0 := Answered], map[], [0], [], {}))))
  {
    hide Reachable;
    var l := FirstLine(AwaitingAck(0), false, [], Core(1, Some(0), map[0 := Open], map[], [0], [], {}));
    var l' := FirstLine(AwaitingAck(0), false, [], Core(1, None, map[0 := Answered], map[], [0], [], {}));
    ReachableThen(OneLine(true, l), OnLine(0, Ack(0)));
    assert Next(l, true, Ack(0)) == l';
    assert (map[0 := l])[0 := l'] == map[0 := l'];
  }

  /** Reply 1 is queued while the worker waits idle. */
  const RACING := FirstLine(Waiting(true), false, [1],
                            Core(2, None, map[0 := Answered], map[0 := Acknowledged], [0], [0], {}))

  /** A run from the new client in which a worker finishes reply 0 and waits for its empty queue;
      reply 1 comes just as that wait times out, and is lost. */
  lemma RacingIdleExitLosesReply()
    ensures Reachable(OneLine(true, RACING)) && Enabled(RACING, Work(0, IdleExit))
    ensures 1 in Next(RACING, true, Work(0, IdleExit)).core.lost
  {
    FirstReplyDone();
    var l := FirstLine(Waiting(true), false, [], Core(1, None, map[0 := Answered], map[0 := Acknowledged], [0], [0], {}));
    hide Reachable;
    ReachableThen(OneLine(true, l), OnLine(0, Send));
    var queue: seq<nat> := [] + [1];
    assert queue == [1];
    assert [[]][0 := queue] == [queue];
    assert Next(l, true, Send) == RACING;
    assert (map[0 := l])[0 := RACING] == map[0 := RACING];
    assert 1 in AsSet([1]);
  }

  // ---- Which replies can still complete ----

  ghost predicate Reports(p: Option<Phase>, x: nat) {
    p.Some? && p.value.Reporting? && p.value.reply == x
  }

  /** A worker that will go on: it has not ended and is not cancelled. */
  ghost predicate GoesOn(v: View) {
    v.phase.Some? && !v.phase.value.Ended? && !v.cancelled
  }

  /** The worker has the reply before it, in flight, or is reporting it. */
  ghost predicate InHand(v: View, x: nat) {
    GoesOn(v) && (x in v.queue || x in InFlight(v.phase) || Reports(v.phase, x))
  }

  /** No worker has the reply: lost, given up in flight or unreported when its worker left, or queued
      with a worker that has ended or is cancelled. */
  ghost predicate Stranded(v: View, x: nat) {
    x < v.core.sent && !InHand(v, x) && (x in v.core.done ==> v.core.done[x].SenderCancelled?)
  }

  lemma ActKeepsStranded(v: View, running: bool, t: nat, a: Act, x: nat)
    requires ViewEnabled(v, Work(t, a)) && Stranded(v, x)
    ensures Stranded(ViewNext(v, running, Work(t, a)), x)
  {
    assert v.queue != [] ==> forall y | y in v.queue[1..] :: y in v.queue;
  }

  lemma ViewStepKeepsStranded(v: View, running: bool, s: LineStep, x: nat)
    requires ViewEnabled(v, s) && Stranded(v, x)
    ensures Stranded(ViewNext(v, running, s), x)
  {
    if s.Work? {
      ActKeepsStranded(v, running, s.task, s.act, x);
      hide ViewNext, Stranded, ViewEnabled;
    }
  }

  lemma ClosingKeepsStranded(l: Line, x: nat)
    requires OneWorker(l) && Stranded(ViewOf(l), x)
    ensures OneWorker(RejectPending(l)) && Stranded(ViewOf(RejectPending(l)), x)
    ensures OneWorker(CancelWorker(l)) && Stranded(ViewOf(CancelWorker(l)), x)
  {
  }

  lemma StepKeepsStranded<Req(!new)>(s: Client<Req>, step: Step<Req>, r: Req, x: nat)
    requires ClientOk(s) && StepEnabled(s, step) && LineOk(LineOf(s, r)) && Stranded(ViewOf(LineOf(s, r)), x)
    ensures OneWorker(LineOf(After(s, step), r)) && Stranded(ViewOf(LineOf(After(s, step), r)), x)
  {
    var l := LineOf(s, r);
    if step.OnLine? && step.req == r {
      StepKeepsOneWorker(l, s.running, step.step);
      ViewStepKeepsStranded(ViewOf(l), s.running, step.step, x);
    } else {
      ClosingKeepsStranded(l, x);
    }
    hide OneWorker, Stranded, Next, Enabled, ViewOk;
  }

  lemma {:induction false} RunKeepsStranded<Req(!new)>(s: Client<Req>, steps: seq<Step<Req>>, r: Req, x: nat)
    requires ClientOk(s) && IsRun(s, steps) && LineOk(LineOf(s, r)) && Stranded(ViewOf(LineOf(s, r)), x)
    ensures LineOk(LineOf(RunOf(s, steps), r)) && Stranded(ViewOf(LineOf(RunOf(s, steps), r)), x)
    decreases |steps|
  {
    if steps != [] {
      StepKeepsStranded(s, steps[0], r, x);
      StepKeepsOk(s, steps[0]);
      assert LineOk(LineOf(After(s, steps[0]), r));
      RunKeepsStranded(After(s, steps[0]), steps[1..], r, x);
    }
    hide Stranded, LineOk;
  }

  function IndexOf(queue: seq<nat>, x: nat): nat {
    if queue == [] || queue[0] == x then 0 else 1 + IndexOf(queue[1..], x)
  }

  function Rank(p: Phase): nat {
    match p
    case NotStarted => 1
    case Waiting(_) => 0
    case Sending(_) => 4
    case AwaitingAck(_) => 3
    case Reporting(_, _) => 2
    case Ended => 0
  }

  /** How far a reply in hand is from its completion. */
  ghost function Distance(v: View, x: nat): nat {
    if v.phase.None? then 0
    else Rank(v.phase.value) + if x in InFlight(v.phase) || Reports(v.phase, x) then 0 else 5 * (IndexOf(v.queue, x) + 1)
  }

  ghost predicate CompletedByWorker(c: Core, x: nat) {
    x in c.done && !c.done[x].SenderCancelled?
  }

  /** One step that brings a reply in hand closer. */
  function NextAct(p: Phase): Act {
    match p
    case NotStarted => Start
    case Sending(_) => AckTimeout
    case AwaitingAck(_) => AckTimeout
    case Reporting(_, _) => Finish(true)
    case _ => Get
  }

  lemma NextActHelps(v: View, t: nat, x: nat)
    requires InHand(v, x) && x !in v.core.done
    ensures CanAct(v.phase.value, v.cancelled, v.queue, v.core, NextAct(v.phase.value))
    ensures var v' := ViewNext(v, true, Work(t, NextAct(v.phase.value)));
            CompletedByWorker(v'.core, x) || (InHand(v', x) && x !in v'.core.done && Distance(v', x) < Distance(v, x))
  {
    if v.phase.value.Waiting? && v.queue[0] != x {
      assert x in v.queue[1..];
    }
  }

  /** A run of its worker completes any reply in hand. */
  lemma {:induction false} InHandCanComplete<Req(!new)>(s: Client<Req>, r: Req, x: nat) returns (steps: seq<Step<Req>>)
    requires ClientOk(s) && s.running && LineOk(LineOf(s, r)) && InHand(ViewOf(LineOf(s, r)), x)
    requires x !in LineOf(s, r).core.done
    ensures IsRun(s, steps) && CompletedByWorker(LineOf(RunOf(s, steps), r).core, x)
    decreases Distance(ViewOf(LineOf(s, r)), x)
  {
    var l := LineOf(s, r);
    var v := ViewOf(l);
    var step := Work(l.entry.value, NextAct(v.phase.value));
    NextActHelps(v, l.entry.value, x);
    assert Enabled(l, step);
    StepKeepsOneWorker(l, true, step);
    var s' := After(s, OnLine(r, step));
    StepKeepsOk(s, OnLine(r, step));
    assert LineOk(LineOf(s', r)) && LineOf(s', r) == Next(l, true, step);
    hide InHand, NextAct, Next, Enabled, OneWorker, CanAct, Distance, ViewOk;
    if CompletedByWorker(LineOf(s', r).core, x) {
      steps := [OnLine(r, step)];
      assert steps[1..] == [];
    } else {
      var rest := InHandCanComplete(s', r, x);
      steps := [OnLine(r, step)] + rest;
      assert steps[1..] == rest;
    }
  }

  /** Some run completes the reply, other than by its sender's cancellation. */
  ghost predicate CanComplete<Req(!new)>(s: Client<Req>, r: Req, x: nat) {
    exists steps :: IsRun(s, steps) && CompletedByWorker(LineOf(RunOf(s, steps), r).core, x)
  }

  /** Exactly which unfinished replies can still complete, over all later runs with reconnects: those
      that a worker which will go on has in its queue, in flight, or to report. */
  lemma CompletableExactly<Req(!new)>(s: Client<Req>, r: Req, x: nat)
    requires ClientOk(s) && LineOk(LineOf(s, r)) && x < LineOf(s, r).core.sent && x !in LineOf(s, r).core.done
    ensures CanComplete(s, r, x) <==> InHand(ViewOf(LineOf(s, r)), x)
  {
    if InHand(ViewOf(LineOf(s, r)), x) {
      var s' := After(s, Connect);
      StepKeepsOk(s, Connect);
      assert LineOf(s', r) == LineOf(s, r);
      var rest := InHandCanComplete(s', r, x);
      var steps := [Connect] + rest;
      assert steps[1..] == rest;
      assert IsRun(s, steps) && RunOf(s, steps) == RunOf(s', rest);
    } else {
      forall steps | IsRun(s, steps) ensures !CompletedByWorker(LineOf(RunOf(s, steps), r).core, x) {
        RunKeepsStranded(s, steps, r, x);
        var l := LineOf(RunOf(s, steps), r);
        assert ViewOf(l).core == l.core;
      }
    }
  }

  /** A shutdown cancels every worker: no reply that is unfinished then can still complete, other than by
      its sender, also after reconnects. */
  lemma ShutdownStrandsReplies<Req(!new)>(s: Client<Req>, r: Req, x: nat)
    requires ClientOk(s) && x < LineOf(s, r).core.sent && x !in LineOf(s, r).core.done
    ensures StepEnabled(s, Disconnect) && !CanComplete(After(s, Disconnect), r, x)
    ensures LineOf(After(s, Disconnect), r).core == LineOf(s, r).core
  {
    hide CanComplete;
    var s' := After(s, Disconnect);
    StepKeepsOk(s, Disconnect);
    assert LineOk(LineOf(s, r)) && LineOk(LineOf(s', r));
    CompletableExactly(s', r, x);
    CancelledDoesNotGoOn(LineOf(s, r));
    hide LineOk, ClientOk;
  }

  lemma CancelledDoesNotGoOn(l: Line)
    requires OneWorker(l) && OneWorker(CancelWorker(l))
    ensures !GoesOn(ViewOf(CancelWorker(l))) && CancelWorker(l).core == l.core
  {
  }

  /** What a reply without a worker is: lost, given up, or queued at an entry that stays dead. */
  lemma StrandedIsOneOf(l: Line, x: nat)
    requires LineOk(l) && x < l.core.sent && x !in l.core.done
    ensures !InHand(ViewOf(l), x) <==>
              || x in l.core.lost
              || (x in l.core.settled && !Reports(ViewOf(l).phase, x))
              || (!GoesOn(ViewOf(l)) && (x in ViewOf(l).queue || x in InFlight(ViewOf(l).phase) || Reports(ViewOf(l).phase, x)))
  {
    PlacesAreDisjoint(ViewOf(l), x);
    hide OneWorker, Ordered;
  }

  /** A frame handed over is settled or in flight, not both, and not queued. */
  lemma PlacesAreDisjoint(v: View, x: nat)
    requires ViewOk(v)
    ensures x in v.core.handed <==> x in v.core.settled || x in InFlight(v.phase)
    ensures x in v.core.handed ==> x !in v.queue
    ensures !(x in v.core.settled && x in InFlight(v.phase))
    ensures x in v.core.lost ==> !Reports(v.phase, x)
  {
    var all := v.core.handed + v.queue;
    if x in v.core.handed {
      var i :| 0 <= i < |v.core.handed| && v.core.handed[i] == x;
      forall j | 0 <= j < |v.queue| ensures v.queue[j] != x {
        assert all[i] < all[|v.core.handed| + j];
      }
    }
    if InFlight(v.phase) != [] {
      forall i | 0 <= i < |v.core.settled| ensures v.core.settled[i] != InFlight(v.phase)[0] {
        assert v.core.handed[|v.core.settled|] == InFlight(v.phase)[0] && v.core.handed[i] == v.core.settled[i];
        assert all[i] < all[|v.core.settled|];
      }
    }
  }

  // ---- A worker cancelled before its first step ----

  /** The entry in the tables has a worker that is over. */
  ghost predicate Dead(l: Line) {
    l.entry.Some? && l.entry.value < |l.tasks| && l.tasks[l.entry.value].phase.Ended?
  }

  lemma StepKeepsDead(l: Line, running: bool, s: LineStep)
    requires OneWorker(l) && Dead(l) && Enabled(l, s)
    ensures var l' := Next(l, running, s); Dead(l') && l'.entry == l.entry && l'.core.handed == l.core.handed
  {
    if s.Work? {
      WorkerIsTheOne(l, s.task, s.act);
    }
    hide Acted;
  }

  /** A dead entry stays, also after reconnects, and nothing queued at it is ever handed over. */
  lemma {:induction false} DeadEntryStays<Req(!new)>(s: Client<Req>, steps: seq<Step<Req>>, r: Req)
    requires ClientOk(s) && IsRun(s, steps) && LineOk(LineOf(s, r)) && Dead(LineOf(s, r))
    ensures var l, l' := LineOf(s, r), LineOf(RunOf(s, steps), r);
            Dead(l') && l'.entry == l.entry && l'.core.handed == l.core.handed
    decreases |steps|
  {
    if steps != [] {
      hide LineOk, LineOf, After, Dead, StepEnabled;
      DeadEntryStaysForStep(s, steps[0], r);
      StepKeepsOk(s, steps[0]);
      DeadEntryStays(After(s, steps[0]), steps[1..], r);
    }
  }

  lemma DeadEntryStaysForStep<Req(!new)>(s: Client<Req>, step: Step<Req>, r: Req)
    requires ClientOk(s) && StepEnabled(s, step) && Dead(LineOf(s, r))
    ensures var l, l' := LineOf(s, r), LineOf(After(s, step), r);
            LineOk(l') && Dead(l') && l'.entry == l.entry && l'.core.handed == l.core.handed
  {
    StepKeepsOk(s, step);
    assert LineOk(LineOf(s, r)) && LineOk(LineOf(After(s, step), r));
    hide LineOk, Next, Enabled;
    if step.OnLine? && step.req == r {
      StepKeepsDead(LineOf(s, r), s.running, step.step);
    }
  }

  /** The run: a reply is queued, and the client disconnects before the new worker's first step. */
  const DEAD := FirstLine(Ended, true, [0], Core(1, None, map[], map[], [], [], {}))

  lemma CancelledBeforeStartIsDead()
    ensures Reachable(OneLine(false, DEAD)) && Dead(DEAD) && !InHand(ViewOf(DEAD), 0)
  {
    FirstReplyReachable();
    var core := Core(1, None, map[], map[], [], [], {});
    var l := FirstLine(NotStarted, false, [0], core);
    var l' := FirstLine(NotStarted, true, [0], core);
    hide Reachable;
    assert CancelWorker(l) == l';
    assert (map r | r in map[0 := l] :: CancelWorker((map[0 := l])[r])) == map[0 := l'];
    ReachableThen(OneLine(true, l), Disconnect);
    assert After(OneLine(true, l), Disconnect) == OneLine(false, l');
    ReachableThen(OneLine(false, l'), OnLine(0, Work(0, Leave)));
    assert Next(l', false, Work(0, Leave)) == DEAD;
    assert (map[0 := l'])[0 := DEAD] == map[0 := DEAD];
  }

  // ---- Runs without shutdown and without a racing idle exit ----

  /** Everything queued is handed over or still queued, in order; no reply is left behind. */
  ghost predicate Conserved(handed: seq<nat>, queue: seq<nat>, sent: nat) {
    |handed| + |queue| == sent && forall i | 0 <= i < sent :: (handed + queue)[i] == i
  }

  /** A frame whose wait has ended has its reply completed, or the worker is just reporting it. */
  ghost predicate SettledDone(p: Option<Phase>, c: Core) {
    && (forall x | x in c.settled :: x in c.done || Reports(p, x))
    && (p.Some? && p.value.Reporting? ==> c.handed != [] && p.value.reply == |c.handed| - 1)
  }

  /** An ACK future in the table is still open. */
  ghost predicate PendingOpen(c: Core) {
    c.pending.Some? ==> c.pending.value in c.acks && c.acks[c.pending.value].Open?
  }

  ghost predicate Orderly(v: View) {
    && PendingOpen(v.core)
    && Conserved(v.core.handed, v.queue, v.core.sent) && OneInFlight(v.phase, v.core) && SettledDone(v.phase, v.core)
    && (v.phase.None? ==> v.queue == [])
    && (v.phase.Some? ==> !v.cancelled && !v.phase.value.Ended?)
  }

  ghost predicate OrderlyStep(v: View, s: LineStep) {
    s.Work? && s.act.IdleExit? ==> v.queue == []
  }

  lemma HandingConserves(handed: seq<nat>, queue: seq<nat>, sent: nat)
    requires Conserved(handed, queue, sent)
    ensures queue != [] ==> queue[0] == |handed| && Conserved(handed + [queue[0]], queue[1..], sent)
    ensures Conserved(handed, queue + [sent], sent + 1)
  {
    var all := handed + queue;
    assert handed + (queue + [sent]) == all + [sent];
    if queue != [] {
      assert handed + [queue[0]] + queue[1..] == all;
      assert all[|handed|] == queue[0];
    }
  }

  /** The frame in flight is the last one handed over. */
  lemma InFlightIsLast(p: Phase, queue: seq<nat>, c: Core)
    requires Waits(p) && OneInFlight(Some(p), c) && Conserved(c.handed, queue, c.sent)
    ensures c.handed != [] && p.reply == |c.handed| - 1
  {
    assert InFlight(Some(p)) == [p.reply];
    assert c.handed[|c.settled|] == p.reply == (c.handed + queue)[|c.settled|];
  }

  lemma ActKeepsOrderly(p: Phase, queue: seq<nat>, c: Core, a: Act)
    requires CanAct(p, false, queue, c, a) && Orderly(View(Some(p), false, queue, c)) && (a.IdleExit? ==> queue == [])
    ensures var e := Acted(p, false, queue, c, true, a);
            && Conserved(e.core.handed, e.queue, e.core.sent) && OneInFlight(PhaseAfter(e), e.core)
            && PendingOpen(e.core) && SettledDone(PhaseAfter(e), e.core) && (e.pops ==> e.queue == []) && (!e.pops ==> !e.phase.Ended?)
  {
    HandingConserves(c.handed, queue, c.sent);
    if Waits(p) {
      InFlightIsLast(p, queue, c);
    }
    hide Conserved;
  }

  /** Without shutdown, and with idle exits only from empty queues, nothing is left behind. */
  lemma ViewStepKeepsOrderly(v: View, s: LineStep)
    requires Orderly(v) && ViewEnabled(v, s) && OrderlyStep(v, s)
    ensures Orderly(ViewNext(v, true, s))
  {
    if s.Work? {
      ActKeepsOrderly(v.phase.value, v.queue, v.core, s.act);
      hide CanAct, Acted, Conserved, OneInFlight, SettledDone;
    } else {
      HandingConserves(v.core.handed, v.queue, v.core.sent);
      hide Conserved;
      assert [] + [v.core.sent] == [v.core.sent];
    }
  }

  /** A bound on the steps its worker still needs before reply `x` completes. */
  function Remaining(v: View, x: nat): nat {
    if x in v.core.done || v.phase.None? || x + 1 < |v.core.handed| then 0
    else Rank(v.phase.value) + 5 * (x + 1 - |v.core.handed|)
  }

  lemma UnfinishedIsAhead(v: View, x: nat)
    requires Orderly(v) && x < v.core.sent && x !in v.core.done
    ensures v.phase.Some? && x + 1 >= |v.core.handed|
    ensures v.phase.value.Waiting? || v.phase.value.NotStarted? ==> v.queue != [] && x >= |v.core.handed|
  {
    var c := v.core;
    if x < |c.handed| {
      assert (c.handed + v.queue)[x] == x;
      if x < |c.settled| {
        assert c.settled[x] == c.handed[x] && x in c.settled;
      }
    }
  }

  /** While a reply is unfinished its worker has a step to take. */
  lemma WorkerCanMove(v: View, x: nat)
    requires Orderly(v) && x < v.core.sent && x !in v.core.done
    ensures Remaining(v, x) > 0
    ensures exists a: Act :: !a.IdleExit? && v.phase.Some? && CanAct(v.phase.value, v.cancelled, v.queue, v.core, a)
  {
    UnfinishedIsAhead(v, x);
    var a := match v.phase.value {
      case NotStarted => Start
      case Waiting(_) => Get
      case Sending(_) => SendDone
      case AwaitingAck(_) => AckTimeout
      case _ => Finish(false)
    };
    assert CanAct(v.phase.value, v.cancelled, v.queue, v.core, a);
  }

  lemma ActBringsCloser(p: Phase, queue: seq<nat>, c: Core, a: Act, x: nat)
    requires CanAct(p, false, queue, c, a) && Orderly(View(Some(p), false, queue, c)) && (a.IdleExit? ==> queue == [])
    requires x < c.sent && x !in c.done
    ensures var e := Acted(p, false, queue, c, true, a);
            || x in e.core.done
            || (!e.pops && Remaining(View(Some(e.phase), false, e.queue, e.core), x) < Remaining(View(Some(p), false, queue, c), x))
  {
    UnfinishedIsAhead(View(Some(p), false, queue, c), x);
    if Waits(p) {
      InFlightIsLast(p, queue, c);
    }
    hide Conserved, OneInFlight;
  }

  /** Every step of the worker brings each unfinished reply closer to completion, and no other
      step of the line takes it further away. */
  lemma StepBringsCloser(v: View, s: LineStep, x: nat)
    requires Orderly(v) && ViewEnabled(v, s) && OrderlyStep(v, s) && x < v.core.sent && x !in v.core.done
    ensures var v' := ViewNext(v, true, s);
            x in v'.core.done || (if s.Work? then Remaining(v', x) < Remaining(v, x) else Remaining(v', x) <= Remaining(v, x))
  {
    if s.Work? {
      ActBringsCloser(v.phase.value, v.queue, v.core, s.act, x);
      hide CanAct, Acted;
    } else {
      UnfinishedIsAhead(v, x);
    }
  }

  ghost predicate OrderlyClient<Req(!new)>(s: Client<Req>) {
    s.running && forall r: Req :: OneWorker(LineOf(s, r)) && Orderly(ViewOf(LineOf(s, r)))
  }

  /** No shutdown, and a worker times out idle only when its queue is empty. */
  ghost predicate OrderlyRun<Req(!new)>(s: Client<Req>, steps: seq<Step<Req>>)
    decreases |steps|
  {
    steps != [] ==>
      && StepEnabled(s, steps[0]) && !steps[0].Disconnect?
      && (steps[0].OnLine? && OneWorker(LineOf(s, steps[0].req)) ==> OrderlyStep(ViewOf(LineOf(s, steps[0].req)), steps[0].step))
      && OrderlyRun(After(s, steps[0]), steps[1..])
  }

  ghost function WorkerSteps<Req>(steps: seq<Step<Req>>, r: Req): nat {
    if steps == [] then 0
    else WorkerSteps(steps[1..], r) + if steps[0].OnLine? && steps[0].req == r && steps[0].step.Work? then 1 else 0
  }

  lemma RejectingKeepsOrderly(l: Line)
    requires OneWorker(l) && Orderly(ViewOf(l))
    ensures OneWorker(RejectPending(l)) && Orderly(ViewOf(RejectPending(l)))
    ensures RejectPending(l).core.done == l.core.done && RejectPending(l).core.sent == l.core.sent
    ensures forall x: nat :: Remaining(ViewOf(RejectPending(l)), x) == Remaining(ViewOf(l), x)
  {
    hide Conserved;
  }

  lemma StepKeepsOrderly<Req(!new)>(s: Client<Req>, step: Step<Req>, r: Req)
    requires OrderlyClient(s) && OrderlyRun(s, [step])
    ensures OrderlyClient(After(s, step))
  {
    var s' := After(s, step);
    forall r: Req ensures OneWorker(LineOf(s', r)) && Orderly(ViewOf(LineOf(s', r))) {
      if step.OnLine? && step.req == r {
        StepKeepsOneWorker(LineOf(s, r), true, step.step);
        ViewStepKeepsOrderly(ViewOf(LineOf(s, r)), step.step);
      } else if r in s.lines {
        assert LineOf(s, r) == s.lines[r];
        RejectingKeepsOrderly(s.lines[r]);
      }
      hide OneWorker, Orderly, Next, Enabled;
    }
  }

  /** A reply completes as soon as its worker has taken the steps it needs, whatever else happens. */
  lemma {:induction false} EveryReplyCompletes<Req(!new)>(s: Client<Req>, steps: seq<Step<Req>>, r: Req, x: nat)
    requires OrderlyClient(s) && OrderlyRun(s, steps) && x < LineOf(s, r).core.sent
    requires WorkerSteps(steps, r) >= Remaining(ViewOf(LineOf(s, r)), x)
    ensures IsRun(s, steps) && x in LineOf(RunOf(s, steps), r).core.done
    decreases |steps|
  {
    if steps == [] {
      if x !in LineOf(s, r).core.done {
        WorkerCanMove(ViewOf(LineOf(s, r)), x);
      }
    } else {
      var s' := After(s, steps[0]);
      assert [steps[0]][1..] == [];
      StepKeepsOrderly(s, steps[0], r);
      StepBringsLineCloser(s, steps[0], r, x);
      EveryReplyCompletes(s', steps[1..], r, x);
    }
  }

  /** Such runs start from a client that has just connected. */
  lemma ConnectedClientIsOrderly<Req(!new)>()
    ensures StepEnabled(Client<Req>.Client(false, map[]), Connect)
    ensures OrderlyClient(After(Client<Req>.Client(false, map[]), Connect))
  {
    assert Orderly(ViewOf(NEW_LINE));
  }

  lemma StepBringsLineCloser<Req(!new)>(s: Client<Req>, step: Step<Req>, r: Req, x: nat)
    requires OrderlyClient(s) && OrderlyRun(s, [step]) && OrderlyClient(After(s, step)) && x < LineOf(s, r).core.sent
    ensures var v, v' := ViewOf(LineOf(s, r)), ViewOf(LineOf(After(s, step), r));
            && x < v'.core.sent && Remaining(v', x) <= Remaining(v, x)
            && (step.OnLine? && step.req == r && step.step.Work? && Remaining(v, x) > 0 ==> Remaining(v', x) < Remaining(v, x))
  {
    var l := LineOf(s, r);
    if step.OnLine? && step.req == r {
      StepKeepsOneWorker(l, true, step.step);
      StepGrows(l, true, step.step);
      if x !in l.core.done {
        StepBringsCloser(ViewOf(l), step.step, x);
        WorkerCanMove(ViewOf(l), x);
      }
      hide OneWorker, Orderly, Next, Enabled;
    } else if r in s.lines {
      RejectingKeepsOrderly(s.lines[r]);
    }
  }
}
