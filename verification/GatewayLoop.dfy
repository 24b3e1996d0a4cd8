/** The reconnect loop of the QQ gateway: it resumes the right session, identifies anew when the
    session is lost, refreshes the token when told to, and gives up after too many failures.
    The environment is a script of attempts; a script that runs out is a cancelled task.  The
    history holds what arrived and what was sent, and every promise is a statement about it. */
module GatewayLoop {
  import opened Wrappers

  const MAX_RECONNECT_ATTEMPTS := 100

  /** Session ids by number; no id stands for the empty one. */
  type SessionId = nat

  datatype Dispatched = Ready(sessionId: Option<SessionId>) | Resumed | OtherEvent

  /** Sending the answer to a Hello goes through, or raises with the close code of the connection. */
  datatype Sending = GoesThrough | Raises(code: Option<int>)

  datatype Frame =
    | Unparsable
    | Hello(sending: Sending)
    | Dispatch(event: Dispatched, seqNo: Option<int>)
    | HeartbeatAck
    | Reconnect
    | InvalidSession(canResume: bool)
    | OtherFrame

  /** The message iterator ends, with the close code of the connection if there is one, or it raises
      with that code; or the task is cancelled. */
  datatype Ending = Closed(code: Option<int>) | Raised(code: Option<int>) | Cancelling

  /** One attempt: no gateway address (with the token refresh, if one was due, done or failed), no
      connection, or a session of frames and how it ended. */
  datatype Attempt = NoUrl(refreshed: bool) | NoConnection | Session(frames: seq<Frame>, ending: Ending)

  datatype Message = Identify | Resume(sessionId: SessionId, seqNo: int)

  datatype Event =
    | Started
    | Refreshed
    | Connected
    | Received(frame: Frame)
    | Sent(message: Message)
    | ClosedWith(code: Option<int>)
    | RaisedWith(code: Option<int>)

  datatype Outcome = Stopped | Banned | GaveUp(notified: bool) | Cancelled

  // ---- What an event means ----

  /** The session is lost: op 9 without resumption, or a close code that invalidates it. */
  predicate Invalidates(e: Event) {
    || e == Received(InvalidSession(false))
    || (e.ClosedWith? && e.code.Some? && InvalidatingCode(e.code.value))
  }

  predicate InvalidatingCode(code: int) {
    LosesSession(code) || 4900 <= code <= 4913
  }

  predicate LosesSession(code: int) {
    code == 4006 || code == 4007 || code == 4009
  }

  predicate DemandsRefresh(e: Event) {
    || e == Received(InvalidSession(false))
    || (e.ClosedWith? && e.code.Some? && (LosesSession(e.code.value) || e.code.value == 4004))
  }

  predicate IsReady(e: Event) {
    e.Received? && e.frame.Dispatch? && e.frame.event.Ready?
  }

  predicate IsReset(e: Event) {
    e.Received? && e.frame.Dispatch? && !e.frame.event.OtherEvent?
  }

  predicate IsNumbered(e: Event) {
    e.Received? && e.frame.Dispatch? && e.frame.seqNo.Some?
  }

  // ---- What a history means ----

  ghost function LiveSession(h: seq<Event>): Option<SessionId> {
    if h == [] then None
    else
      var e := h[|h| - 1];
      if Invalidates(e) then None else if IsReady(e) then e.frame.event.sessionId else LiveSession(h[..|h| - 1])
  }

  ghost function LiveSeq(h: seq<Event>): int {
    if h == [] then 0
    else
      var e := h[|h| - 1];
      if Invalidates(e) then 0 else if IsNumbered(e) then e.frame.seqNo.value else LiveSeq(h[..|h| - 1])
  }

  ghost predicate RefreshDue(h: seq<Event>) {
    h != [] && (DemandsRefresh(h[|h| - 1]) || (!h[|h| - 1].Refreshed? && RefreshDue(h[..|h| - 1])))
  }

  ghost predicate WasReset(h: seq<Event>) {
    exists i :: 0 <= i < |h| && IsReset(h[i])
  }

  /** Attempts started since the last READY or RESUMED. */
  ghost function StartsSinceReset(h: seq<Event>): nat {
    if h == [] || IsReset(h[|h| - 1]) then 0
    else StartsSinceReset(h[..|h| - 1]) + if h[|h| - 1].Started? then 1 else 0
  }

  ghost function AttemptBound(h: seq<Event>): nat {
    if WasReset(h) then MAX_RECONNECT_ATTEMPTS else MAX_RECONNECT_ATTEMPTS + 1
  }

  ghost predicate AwaitsAnswer(h: seq<Event>) {
    h != [] && h[|h| - 1] == Received(Hello(GoesThrough))
  }

  /** A Hello is answered at once, unless that raises, and nothing else is sent: by Resume with the live session and
      its sequence number if there are both, and else by Identify. */
  ghost predicate StepOk(h: seq<Event>, e: Event) {
    && (e.Sent? <==> AwaitsAnswer(h))
    && (e.Sent? ==> e.message == if LiveSession(h).Some? && LiveSeq(h) > 0 then Resume(LiveSession(h).value, LiveSeq(h)) else Identify)
    && (e.Connected? ==> !RefreshDue(h)) && (e.Refreshed? ==> RefreshDue(h))
    && (e.Started? ==> StartsSinceReset(h) < AttemptBound(h))
  }

  ghost predicate Lawful(h: seq<Event>) {
    forall k: nat | k < |h| :: StepOk(h[..k], h[k])
  }

  /** The history without what the loop itself does: its messages and its token refreshes. */
  ghost function Heard(h: seq<Event>): seq<Event> {
    if h == [] then []
    else Heard(h[..|h| - 1]) + if h[|h| - 1].Sent? || h[|h| - 1].Refreshed? then [] else [h[|h| - 1]]
  }

  predicate Leaves(frame: Frame) {
    frame.Reconnect? || frame.InvalidSession? || (frame.Hello? && frame.sending.Raises?)
  }

  ghost function Read(frames: seq<Frame>, n: nat): seq<Event>
    requires n <= |frames|
  {
    if n == 0 then [] else Read(frames, n - 1) + [Received(frames[n - 1])]
  }

  /** How many frames of a connection are read: all up to the first after which it is left. */
  function ReadCount(frames: seq<Frame>, n: nat): nat
    requires n <= |frames|
    ensures ReadCount(frames, n) <= |frames|
    decreases |frames| - n
  {
    if n == |frames| then n else if Leaves(frames[n]) then n + 1 else ReadCount(frames, n + 1)
  }

  /** The last frame read is a Hello whose answer raised. */
  predicate AnswerRaises(frames: seq<Frame>) {
    var n := ReadCount(frames, 0);
    n > 0 && frames[n - 1].Hello? && frames[n - 1].sending.Raises?
  }

  function EndingOf(attempt: Attempt): Ending
    requires attempt.Session?
  {
    if AnswerRaises(attempt.frames) then Raised(attempt.frames[ReadCount(attempt.frames, 0) - 1].sending.code) else attempt.ending
  }

  function EndEvents(ending: Ending): seq<Event> {
    match ending
    case Closed(code) => [ClosedWith(code)]
    case Raised(code) => [RaisedWith(code)]
    case Cancelling => []
  }

  ghost function HeardInSession(attempt: Attempt): seq<Event>
    requires attempt.Session?
  {
    [Connected] + Read(attempt.frames, ReadCount(attempt.frames, 0)) + EndEvents(EndingOf(attempt))
  }

  ghost function HeardInAttempt(attempt: Attempt): seq<Event> {
    [Started] + if attempt.Session? then HeardInSession(attempt) else []
  }

  ghost function HeardInScript(script: seq<Attempt>, n: nat): seq<Event>
    requires n <= |script|
  {
    if n == 0 then [] else HeardInScript(script, n - 1) + HeardInAttempt(script[n - 1])
  }

  ghost predicate Hears(h0: seq<Event>, h: seq<Event>, more: seq<Event>) {
    Heard(h) == Heard(h0) + more
  }

  lemma HearingAdds(a: seq<Event>, b: seq<Event>, c: seq<Event>, x: seq<Event>, y: seq<Event>)
    requires Hears(a, b, x) && Hears(b, c, y)
    ensures Hears(a, c, x + y)
  {
    hide Heard;
    assert Heard(a) + x + y == Heard(a) + (x + y);
  }

  lemma HearingNothing(a: seq<Event>, b: seq<Event>, c: seq<Event>, x: seq<Event>)
    requires Hears(a, b, x) && Hears(b, c, [])
    ensures Hears(a, c, x)
  {
    HearingAdds(a, b, c, x, []);
    assert x + [] == x;
  }

  lemma NothingHeard(h: seq<Event>)
    ensures Hears(h, h, [])
  {
    hide Heard;
    assert Heard(h) + [] == Heard(h);
  }

  lemma HearingSession(h0: seq<Event>, h1: seq<Event>, h2: seq<Event>, h3: seq<Event>, attempt: Attempt)
    requires attempt.Session? && Hears(h0, h1, [Connected]) && Hears(h1, h2, Read(attempt.frames, ReadCount(attempt.frames, 0)))
    requires Hears(h2, h3, EndEvents(EndingOf(attempt)))
    ensures Hears(h0, h3, HeardInSession(attempt))
  {
    hide Hears, Read, ReadCount, EndingOf, EndEvents;
    var read := Read(attempt.frames, ReadCount(attempt.frames, 0));
    HearingAdds(h0, h1, h2, [Connected], read);
    HearingAdds(h0, h2, h3, [Connected] + read, EndEvents(EndingOf(attempt)));
  }

  lemma Appending(h: seq<Event>, e: Event)
    requires Lawful(h) && StepOk(h, e)
    ensures Lawful(h + [e])
    ensures LiveSession(h + [e]) == if Invalidates(e) then None else if IsReady(e) then e.frame.event.sessionId else LiveSession(h)
    ensures LiveSeq(h + [e]) == if Invalidates(e) then 0 else if IsNumbered(e) then e.frame.seqNo.value else LiveSeq(h)
    ensures RefreshDue(h + [e]) <==> DemandsRefresh(e) || (!e.Refreshed? && RefreshDue(h))
    ensures WasReset(h + [e]) <==> WasReset(h) || IsReset(e)
    ensures StartsSinceReset(h + [e]) == if IsReset(e) then 0 else StartsSinceReset(h) + if e.Started? then 1 else 0
    ensures AwaitsAnswer(h + [e]) <==> e == Received(Hello(GoesThrough))
    ensures Hears(h, h + [e], if e.Sent? || e.Refreshed? then [] else [e])
  {
    var h' := h + [e];
    assert h'[..|h|] == h && h'[|h|] == e;
    forall k: nat | k < |h'| ensures StepOk(h'[..k], h'[k]) {
      if k < |h| {
        assert h'[..k] == h[..k];
      }
    }
    assert WasReset(h) ==> WasReset(h') by {
      if WasReset(h) {
        var i :| 0 <= i < |h| && IsReset(h[i]);
        assert IsReset(h'[i]);
      }
    }
  }

  // ---- What a lawful history guarantees ----

  ghost function Starts(h: seq<Event>): nat {
    if h == [] then 0 else Starts(h[..|h| - 1]) + if h[|h| - 1].Started? then 1 else 0
  }

  lemma {:induction false} StartsOfStretch(h: seq<Event>, i: nat, j: nat)
    requires i <= j <= |h| && forall k | i <= k < j :: !IsReset(h[k])
    ensures Starts(h[i..j]) <= StartsSinceReset(h[..j])
  {
    if i < j {
      StartsOfStretch(h, i, j - 1);
      assert h[i..j][..j - 1 - i] == h[i..j - 1] && h[..j][..j - 1] == h[..j - 1];
    }
  }

  lemma {:induction false} StartsStayBounded(h: seq<Event>, j: nat)
    requires Lawful(h) && j <= |h|
    ensures StartsSinceReset(h[..j]) <= AttemptBound(h[..j])
  {
    if j > 0 {
      StartsStayBounded(h, j - 1);
      assert h[..j][..j - 1] == h[..j - 1];
      assert StepOk(h[..j - 1], h[j - 1]);
      if WasReset(h[..j]) && !IsReset(h[j - 1]) {
        assert WasReset(h[..j - 1]) by {
          var i :| 0 <= i < j && IsReset(h[..j][i]);
          assert IsReset(h[..j - 1][i]);
        }
      }
    }
  }

  /** No stretch of a run without READY or RESUMED starts more than 101 attempts, and none after
      the first such event more than 100. */
  lemma FewAttemptsBetweenResets(h: seq<Event>, i: nat, j: nat)
    requires Lawful(h) && i <= j <= |h| && forall k | i <= k < j :: !IsReset(h[k])
    ensures Starts(h[i..j]) <= MAX_RECONNECT_ATTEMPTS + 1
    ensures (exists k :: 0 <= k < i && IsReset(h[k])) ==> Starts(h[i..j]) <= MAX_RECONNECT_ATTEMPTS
  {
    StartsOfStretch(h, i, j);
    StartsStayBounded(h, j);
    if k :| 0 <= k < i && IsReset(h[k]) {
      assert IsReset(h[..j][k]);
    }
  }

  /** Entry `i` is the last event before `k` that set the session (or, below, the number) and no
      invalidating event came after it. */
  ghost predicate Standing(h: seq<Event>, i: nat, k: nat, sets: Event -> bool) {
    && i < k <= |h| && sets(h[i]) && !Invalidates(h[i])
    && forall j | i < j < k :: !sets(h[j]) && !Invalidates(h[j])
  }

  lemma {:induction false} LiveSessionStands(h: seq<Event>, k: nat)
    requires k <= |h| && LiveSession(h[..k]).Some?
    ensures exists i: nat :: Standing(h, i, k, IsReady) && h[i].frame.event.sessionId == LiveSession(h[..k])
  {
    assert h[..k][..k - 1] == h[..k - 1];
    if IsReady(h[k - 1]) {
      assert Standing(h, k - 1, k, IsReady);
    } else {
      LiveSessionStands(h, k - 1);
      var i: nat :| Standing(h, i, k - 1, IsReady) && h[i].frame.event.sessionId == LiveSession(h[..k - 1]);
      assert Standing(h, i, k, IsReady);
    }
  }

  lemma {:induction false} LiveSeqStands(h: seq<Event>, k: nat)
    requires k <= |h| && LiveSeq(h[..k]) != 0
    ensures exists i: nat :: Standing(h, i, k, IsNumbered) && h[i].frame.seqNo == Some(LiveSeq(h[..k]))
  {
    assert h[..k][..k - 1] == h[..k - 1];
    if IsNumbered(h[k - 1]) {
      assert Standing(h, k - 1, k, IsNumbered);
    } else {
      LiveSeqStands(h, k - 1);
      var i: nat :| Standing(h, i, k - 1, IsNumbered) && h[i].frame.seqNo == Some(LiveSeq(h[..k - 1]));
      assert Standing(h, i, k, IsNumbered);
    }
  }

  /** A Resume frame carries the session of the latest READY not invalidated since, and the latest
      sequence number received since any invalidation. */
  lemma ResumeCarriesLatest(h: seq<Event>, k: nat)
    requires Lawful(h) && k < |h| && h[k].Sent? && h[k].message.Resume?
    ensures exists i: nat :: Standing(h, i, k, IsReady) && h[i].frame.event.sessionId == Some(h[k].message.sessionId)
    ensures exists i: nat :: Standing(h, i, k, IsNumbered) && h[i].frame.seqNo == Some(h[k].message.seqNo)
    ensures h[k].message.seqNo > 0
  {
    assert StepOk(h[..k], h[k]);
    LiveSessionStands(h, k);
    LiveSeqStands(h, k);
  }

  lemma {:induction false} StandingIsLive(h: seq<Event>, i: nat, k: nat)
    requires k <= |h|
    ensures Standing(h, i, k, IsReady) ==> LiveSession(h[..k]) == h[i].frame.event.sessionId
    ensures Standing(h, i, k, IsNumbered) ==> LiveSeq(h[..k]) == h[i].frame.seqNo.value
  {
    if i < k {
      assert h[..k][..k - 1] == h[..k - 1] && h[..k][k - 1] == h[k - 1];
      if i < k - 1 {
        StandingIsLive(h, i, k - 1);
        assert Standing(h, i, k, IsReady) ==> Standing(h, i, k - 1, IsReady);
        assert Standing(h, i, k, IsNumbered) ==> Standing(h, i, k - 1, IsNumbered);
      }
    }
  }

  /** With a named session and a positive number standing, a Hello is answered by Resume. */
  lemma StandingSessionIsResumed(h: seq<Event>, i: nat, n: nat, k: nat)
    requires Lawful(h) && k < |h| && h[k].Sent?
    requires Standing(h, i, k, IsReady) && h[i].frame.event.sessionId.Some?
    requires Standing(h, n, k, IsNumbered) && h[n].frame.seqNo.value > 0
    ensures h[k].message == Resume(h[i].frame.event.sessionId.value, h[n].frame.seqNo.value)
  {
    assert StepOk(h[..k], h[k]);
    StandingIsLive(h, i, k);
    StandingIsLive(h, n, k);
  }

  /** Once a session is invalidated, every Hello before the next READY is answered by Identify. */
  lemma LostSessionIsIdentified(h: seq<Event>, i: nat, k: nat)
    requires Lawful(h) && i < k < |h| && Invalidates(h[i]) && h[k].Sent?
    requires forall j | i < j < k :: !IsReady(h[j])
    ensures h[k].message == Identify
  {
    assert StepOk(h[..k], h[k]);
    StaysLost(h, i, k);
  }

  lemma {:induction false} StaysLost(h: seq<Event>, i: nat, k: nat)
    requires i < k <= |h| && Invalidates(h[i]) && forall j | i < j < k :: !IsReady(h[j])
    ensures LiveSession(h[..k]) == None
  {
    assert h[..k][..k - 1] == h[..k - 1] && h[..k][k - 1] == h[k - 1];
    if i < k - 1 {
      StaysLost(h, i, k - 1);
    }
  }

  // ---- Close codes that come with an exception ----

  /** A connection closed with an invalidating code, whether its iterator ended or raised. */
  predicate EndsInvalid(e: Event) {
    (e.ClosedWith? || e.RaisedWith?) && e.code.Some? && InvalidatingCode(e.code.value)
  }

  lemma {:induction false} SessionUnchanged(h: seq<Event>, i: nat, k: nat)
    requires i <= k <= |h| && forall j | i <= j < k :: !IsReady(h[j]) && !Invalidates(h[j])
    ensures LiveSession(h[..k]) == LiveSession(h[..i])
    ensures (forall j | i <= j < k :: !IsNumbered(h[j])) ==> LiveSeq(h[..k]) == LiveSeq(h[..i])
  {
    if i < k {
      SessionUnchanged(h, i, k - 1);
      assert h[..k][..k - 1] == h[..k - 1] && h[..k][k - 1] == h[k - 1];
    }
  }

  /** After a connection closed with an invalidating code, a Hello before the next READY is answered
      by Identify exactly when the iterator ended (or something else invalidated the session since),
      or no session with a positive number stood. */
  lemma InvalidatingCodeIdentifiesExactly(h: seq<Event>, i: nat, k: nat)
    requires Lawful(h) && i < k < |h| && EndsInvalid(h[i]) && h[k].Sent?
    requires forall j | i < j < k :: !IsReady(h[j])
    ensures h[k].message.Identify? <==>
              (exists j :: i <= j < k && Invalidates(h[j])) || LiveSession(h[..i]).None? || LiveSeq(h[..k]) <= 0
    ensures h[i].ClosedWith? ==> Invalidates(h[i])
  {
    assert StepOk(h[..k], h[k]);
    if j :| i <= j < k && Invalidates(h[j]) {
      StaysLost(h, j, k);
    } else {
      SessionUnchanged(h, i, k);
    }
  }

  /** For the very next Hello, with no dispatch before it on the new connection: Identify exactly
      when the iterator ended or no session with a positive number stood, and else Resume. */
  lemma NextHelloAfterInvalidatingCode(h: seq<Event>, i: nat, k: nat)
    requires Lawful(h) && i < k < |h| && EndsInvalid(h[i]) && h[k].Sent?
    requires forall j | i < j < k :: !IsReady(h[j]) && !IsNumbered(h[j]) && !Invalidates(h[j])
    ensures h[k].message
         == if h[i].ClosedWith? || LiveSession(h[..i]).None? || LiveSeq(h[..i]) <= 0 then Identify
            else Resume(LiveSession(h[..i]).value, LiveSeq(h[..i]))
  {
    assert StepOk(h[..k], h[k]);
    if h[i].ClosedWith? {
      StaysLost(h, i, k);
    } else {
      SessionUnchanged(h, i, k);
    }
  }

  /** A raised close demands no new token, whatever its code: none is fetched until something else
      demands it. */
  lemma {:induction false} RaisedCodeRefreshesNothing(h: seq<Event>, i: nat, k: nat)
    requires Lawful(h) && i < k <= |h| && h[i].RaisedWith? && !RefreshDue(h[..i])
    requires forall j | i < j < k :: !DemandsRefresh(h[j])
    ensures !RefreshDue(h[..k]) && forall j | i < j < k :: !h[j].Refreshed?
  {
    hide LiveSession, LiveSeq, WasReset, StartsSinceReset, AttemptBound;
    assert h[..k][..k - 1] == h[..k - 1] && h[..k][k - 1] == h[k - 1];
    if i < k - 1 {
      RaisedCodeRefreshesNothing(h, i, k - 1);
      assert StepOk(h[..k - 1], h[k - 1]);
    }
  }

  /** What is live depends only on what was heard. */
  lemma {:induction false} LiveIsHeard(h: seq<Event>)
    ensures LiveSession(h) == LiveSession(Heard(h)) && LiveSeq(h) == LiveSeq(Heard(h))
  {
    if h != [] {
      var init, e := h[..|h| - 1], h[|h| - 1];
      LiveIsHeard(init);
      if !e.Sent? && !e.Refreshed? {
        assert Heard(h) == Heard(init) + [e];
        assert Heard(h)[..|Heard(h)| - 1] == Heard(init);
      } else {
        assert Heard(h) == Heard(init);
      }
    }
  }

  /** Where the last event heard stands in the history. */
  lemma {:induction false} LastHeard(h: seq<Event>, before: seq<Event>, e: Event) returns (k: nat)
    requires Heard(h) == before + [e]
    ensures k < |h| && h[k] == e && Heard(h[..k]) == before
  {
    k := |h| - 1;
    var init := h[..k];
    if h[k].Sent? || h[k].Refreshed? {
      assert Heard(h) == Heard(init);
      k := LastHeard(init, before, e);
      assert init[..k] == h[..k];
    } else {
      assert Heard(h) == Heard(init) + [h[k]];
      assert Heard(h)[..|before|] == before && Heard(h)[|before|] == e;
    }
  }

  /** A session with an id and a number, a close that raises, and a second connection. */
  function RaisedClose(sessionId: SessionId, seqNo: int, code: int): seq<Attempt> {
    [Session([Hello(GoesThrough), Dispatch(Ready(Some(sessionId)), Some(seqNo))], Raised(Some(code))), Session([Hello(GoesThrough)], Cancelling)]
  }

  ghost function BeforeLastHello(sessionId: SessionId, seqNo: int, code: int): seq<Event> {
    [Started, Connected, Received(Hello(GoesThrough)), Received(Dispatch(Ready(Some(sessionId)), Some(seqNo))), RaisedWith(Some(code)),
     Started, Connected]
  }

  lemma HeardInRaisedClose(sessionId: SessionId, seqNo: int, code: int)
    ensures HeardInScript(RaisedClose(sessionId, seqNo, code), 2)
         == BeforeLastHello(sessionId, seqNo, code) + [Received(Hello(GoesThrough))]
    ensures RaisedWith(Some(code)) in BeforeLastHello(sessionId, seqNo, code) + [Received(Hello(GoesThrough))]
  {
    assert BeforeLastHello(sessionId, seqNo, code)[4] == RaisedWith(Some(code));
    var script := RaisedClose(sessionId, seqNo, code);
    var first, second := script[0], script[1];
    assert ReadCount(first.frames, 2) == 2 && ReadCount(first.frames, 1) == 2 && ReadCount(first.frames, 0) == 2;
    assert Read(first.frames, 1) == [Received(first.frames[0])];
    assert HeardInAttempt(first) == [Started, Connected, Received(Hello(GoesThrough)), Received(first.frames[1]), RaisedWith(Some(code))];
    assert ReadCount(second.frames, 1) == 1 && ReadCount(second.frames, 0) == 1;
    assert HeardInAttempt(second) == [Started, Connected, Received(Hello(GoesThrough))];
    hide HeardInAttempt, BeforeLastHello;
    assert HeardInScript(script, 0) == [] && HeardInScript(script, 1) == HeardInAttempt(first);
    HeardInBoth(sessionId, seqNo, code);
  }

  lemma HeardInBoth(sessionId: SessionId, seqNo: int, code: int)
    ensures [Started, Connected, Received(Hello(GoesThrough)), Received(Dispatch(Ready(Some(sessionId)), Some(seqNo))),
             RaisedWith(Some(code))] + [Started, Connected, Received(Hello(GoesThrough))]
         == BeforeLastHello(sessionId, seqNo, code) + [Received(Hello(GoesThrough))]
  {
  }

  /** The failing input: the loop's history of this script ends with a Resume of the session that the
      close code, 4006 for one, invalidates. */
  lemma RaisedCloseIsResumed(h: seq<Event>, sessionId: SessionId, seqNo: int, code: int)
    requires Lawful(h) && !AwaitsAnswer(h) && seqNo > 0
    requires Hears([], h, HeardInScript(RaisedClose(sessionId, seqNo, code), 2))
    ensures exists k: nat :: 0 < k < |h| && h[k - 1] == Received(Hello(GoesThrough)) && h[k] == Sent(Resume(sessionId, seqNo))
                             && RaisedWith(Some(code)) in Heard(h[..k])
  {
    hide HeardInScript, LiveSession, LiveSeq, Lawful, AwaitsAnswer, BeforeLastHello, Heard;
    HeardInRaisedClose(sessionId, seqNo, code);
    LiveAfterRaisedClose(sessionId, seqNo, code);
    NothingHeardBefore(h, HeardInScript(RaisedClose(sessionId, seqNo, code), 2));
    var k := LastHelloAnswered(h, BeforeLastHello(sessionId, seqNo, code));
  }

  lemma NothingHeardBefore(h: seq<Event>, more: seq<Event>)
    ensures Hears([], h, more) ==> Heard(h) == more
  {
    assert Heard([]) == [] && [] + more == more;
  }

  /** When a Hello is the last thing heard, the history goes on with its answer. */
  lemma LastHelloAnswered(h: seq<Event>, before: seq<Event>) returns (k: nat)
    requires Lawful(h) && !AwaitsAnswer(h) && Heard(h) == before + [Received(Hello(GoesThrough))]
    ensures 0 < k < |h| && h[k - 1] == Received(Hello(GoesThrough)) && Heard(h[..k]) == Heard(h)
    ensures h[k] == Sent(if LiveSession(Heard(h)).Some? && LiveSeq(Heard(h)) > 0
                         then Resume(LiveSession(Heard(h)).value, LiveSeq(Heard(h))) else Identify)
  {
    hide LiveSession, LiveSeq;
    var j := LastHeard(h, before, Received(Hello(GoesThrough)));
    k := j + 1;
    AnsweredNext(h, j);
    HeardUpTo(h, j);
    LiveIsHeard(h[..k]);
  }

  lemma AnsweredNext(h: seq<Event>, j: nat)
    requires Lawful(h) && !AwaitsAnswer(h) && j < |h| && h[j] == Received(Hello(GoesThrough))
    ensures j + 1 < |h| && StepOk(h[..j + 1], h[j + 1]) && AwaitsAnswer(h[..j + 1])
  {
    hide StepOk;
  }

  lemma HeardUpTo(h: seq<Event>, j: nat)
    requires j < |h| && h[j].Received?
    ensures Heard(h[..j + 1]) == Heard(h[..j]) + [h[j]]
  {
    assert h[..j + 1][..j] == h[..j] && h[..j + 1][j] == h[j];
  }

  lemma LiveAfterRaisedClose(sessionId: SessionId, seqNo: int, code: int)
    ensures var heard := BeforeLastHello(sessionId, seqNo, code) + [Received(Hello(GoesThrough))];
            LiveSession(heard) == Some(sessionId) && LiveSeq(heard) == seqNo
  {
    var heard := BeforeLastHello(sessionId, seqNo, code) + [Received(Hello(GoesThrough))];
    assert Standing(heard, 3, 8, IsReady) && Standing(heard, 3, 8, IsNumbered);
    StandingIsLive(heard, 3, 8);
    assert heard[..8] == heard;
  }

  /** Between an event that demands a new token and the next connection the token is refreshed. */
  lemma {:induction false} RefreshPrecedesConnection(h: seq<Event>, i: nat, k: nat)
    requires Lawful(h) && i < k < |h| && DemandsRefresh(h[i]) && h[k].Connected?
    ensures exists j :: i < j < k && h[j].Refreshed?
  {
    assert StepOk(h[..k], h[k]);
    if forall j | i < j < k :: !h[j].Refreshed? {
      StaysDue(h, i, k);
    }
  }

  lemma {:induction false} StaysDue(h: seq<Event>, i: nat, k: nat)
    requires i < k <= |h| && DemandsRefresh(h[i]) && forall j | i < j < k :: !h[j].Refreshed?
    ensures RefreshDue(h[..k])
  {
    assert h[..k][..k - 1] == h[..k - 1] && h[..k][k - 1] == h[k - 1];
    if i < k - 1 {
      StaysDue(h, i, k - 1);
    }
  }

  // ---- The loop ----

  /** The loop variables are what the history says they are. */
  ghost predicate Tracks(h: seq<Event>, sessionId: Option<SessionId>, lastSeq: int, refresh: bool) {
    Lawful(h) && !AwaitsAnswer(h) && sessionId == LiveSession(h) && lastSeq == LiveSeq(h) && refresh == RefreshDue(h)
  }

  /** Every failed attempt has added exactly one since the last reset. */
  ghost function FailuresCounted(h: seq<Event>): int {
    StartsSinceReset(h) + if WasReset(h) then 1 else 0
  }

  /** The frames of one connection, up to the first directive to leave it. */
  method ReadFrames(h0: seq<Event>, frames: seq<Frame>, sessionId0: Option<SessionId>, lastSeq0: int, refresh0: bool, attempts0: int)
    returns (h: seq<Event>, sessionId: Option<SessionId>, lastSeq: int, refresh: bool, attempts: int, raised: Option<Ending>)
    requires Tracks(h0, sessionId0, lastSeq0, refresh0) && 0 <= attempts0 == FailuresCounted(h0) - 1
    ensures Tracks(h, sessionId, lastSeq, refresh) && 0 <= attempts == FailuresCounted(h) - 1
    ensures raised == if AnswerRaises(frames) then Some(Raised(frames[ReadCount(frames, 0) - 1].sending.code)) else None
    ensures attempts <= attempts0 && Hears(h0, h, Read(frames, ReadCount(frames, 0)))
    ensures Converses(h0, h)
  {
    hide Lawful, LiveSession, LiveSeq, RefreshDue, WasReset, StartsSinceReset, Heard, Hears, AwaitsAnswer, Converses;
    NothingHeard(h0);
    ConversingOn(h0, h0, Sent(Identify));
    h, sessionId, lastSeq, refresh, attempts, raised := h0, sessionId0, lastSeq0, refresh0, attempts0, None;
    for i := 0 to |frames|
      invariant Tracks(h, sessionId, lastSeq, refresh) && attempts == FailuresCounted(h) - 1
      invariant 0 <= attempts <= attempts0 && raised.None? && (i > 0 ==> !Leaves(frames[i - 1]))
      invariant Hears(h0, h, Read(frames, i)) && ReadCount(frames, 0) == ReadCount(frames, i)
      invariant Converses(h0, h)
    {
      var frame := frames[i];
      ghost var before := h;
      Appending(h, Received(frame));
      ConversingOn(h0, h, Received(frame));
      h := h + [Received(frame)];
      HearingAdds(h0, before, h, Read(frames, i), [Received(frame)]);
      match frame {
        case Hello(sending) =>
          if sending.Raises? {
            raised := Some(Raised(sending.code));
            return;
          }
          var message := if sessionId.Some? && lastSeq > 0 then Resume(sessionId.value, lastSeq) else Identify;
          Appending(h, Sent(message));
          ConversingOn(h0, h, Sent(message));
          HearingNothing(h0, h, h + [Sent(message)], Read(frames, i + 1));
          h := h + [Sent(message)];
        case Dispatch(event, seqNo) =>
          if seqNo.Some? {
            lastSeq := seqNo.value;
          }
          if event.Ready? {
            sessionId, attempts := event.sessionId, 0;
          } else if event.Resumed? {
            attempts := 0;
          }
        case Reconnect =>
          return;
        case InvalidSession(canResume) =>
          if !canResume {
            sessionId, lastSeq, refresh := None, 0, true;
          }
          return;
        case _ =>
      }
    }
  }

  /** What the close code does to the session and the token, and what it means for the loop. */
  method Close(h0: seq<Event>, code: Option<int>, sessionId0: Option<SessionId>, lastSeq0: int, refresh0: bool)
    returns (h: seq<Event>, sessionId: Option<SessionId>, lastSeq: int, refresh: bool, next: Next)
    requires Tracks(h0, sessionId0, lastSeq0, refresh0) && NoneFinal(h0) && LastConnected(h0)
    ensures NextFollows(h, false, next) && FinalIsLast(h) && (next.Leave? || NoneFinal(h))
    ensures Tracks(h, sessionId, lastSeq, refresh) && FailuresCounted(h) == FailuresCounted(h0) && h == h0 + [ClosedWith(code)]
    ensures Hears(h0, h, [ClosedWith(code)])
  {
    hide Lawful, LiveSession, LiveSeq, RefreshDue, WasReset, StartsSinceReset, Heard, Hears, NextFollows, FinalIsLast, NoneFinal;
    Appending(h0, ClosedWith(code));
    ClosingFollows(h0, code);
    h, sessionId, lastSeq, refresh, next := h0 + [ClosedWith(code)], sessionId0, lastSeq0, refresh0, Backoff;
    if code == Some(4004) {
      refresh := true;
    } else if code.Some? && LosesSession(code.value) {
      sessionId, lastSeq, refresh := None, 0, true;
    } else if code == Some(4008) {
      next := SlowDown;
    } else if code == Some(4914) || code == Some(4915) {
      next := Leave(Banned);
    } else if code.Some? && 4900 <= code.value <= 4913 {
      sessionId, lastSeq := None, 0;
    }
    if code == Some(1000) {
      next := Leave(Stopped);
    }
  }

  /** What an attempt means for the loop: back off and try again, slow down (4008, or no session at
      all: the error callback will not hear of giving up here), or leave. */
  datatype Next = Backoff | SlowDown | Leave(outcome: Outcome)

  // ---- What the end of a history says ----

  predicate EndsWith(h: seq<Event>, code: int) {
    h != [] && h[|h| - 1] == ClosedWith(Some(code))
  }

  predicate EndsClosed(h: seq<Event>) {
    h != [] && h[|h| - 1].ClosedWith?
  }

  predicate EndsBanned(h: seq<Event>) {
    EndsWith(h, 4914) || EndsWith(h, 4915)
  }

  /** A connection that closed with one of these codes is the last. */
  predicate IsFinal(e: Event) {
    e == ClosedWith(Some(1000)) || e == ClosedWith(Some(4914)) || e == ClosedWith(Some(4915))
  }

  predicate NoneFinal(h: seq<Event>) {
    forall i | 0 <= i < |h| :: !IsFinal(h[i])
  }

  /** The last attempt has had a connection. */
  predicate LastConnected(h: seq<Event>) {
    exists i :: 0 <= i < |h| && h[i].Connected? && forall k | i < k < |h| :: !h[k].Started?
  }

  /** The task was cancelled during the last attempt. */
  predicate CancelledIn(script: seq<Attempt>, used: nat) {
    0 < used <= |script| && script[used - 1].Session? && EndingOf(script[used - 1]).Cancelling?
  }

  /** What an attempt means for the loop, read off the history after it. */
  ghost predicate NextFollows(h: seq<Event>, cancelled: bool, next: Next) {
    && (next == Leave(Cancelled) <==> cancelled) && (next == Leave(Banned) <==> EndsBanned(h))
    && (next == Leave(Stopped) <==> EndsWith(h, 1000)) && !(next.Leave? && next.outcome.GaveUp?)
    && (next.SlowDown? <==> !LastConnected(h) || EndsWith(h, 4008))
  }

  /** Only the last event may be final. */
  predicate FinalIsLast(h: seq<Event>) {
    h != [] ==> NoneFinal(h[..|h| - 1])
  }

  lemma NothingEnds(h: seq<Event>, e: Event)
    requires NoneFinal(h)
    ensures FinalIsLast(h + [e]) && (NoneFinal(h + [e]) <==> !IsFinal(e)) && (EndsClosed(h + [e]) <==> e.ClosedWith?)
    ensures LastConnected(h + [e]) <==> e.Connected? || (LastConnected(h) && !e.Started?)
  {
    var h' := h + [e];
    assert h'[..|h'| - 1] == h && h'[|h|] == e;
    if LastConnected(h) && !e.Started? {
      var i :| 0 <= i < |h| && h[i].Connected? && forall k | i < k < |h| :: !h[k].Started?;
      assert h'[i].Connected?;
    }
    if i :| 0 <= i < |h'| && h'[i].Connected? && forall k | i < k < |h'| :: !h'[k].Started? {
      assert i < |h| ==> h[i].Connected? && forall k | i < k < |h| :: h[k] == h'[k];
    }
  }

  lemma NoneFinalEnds(h: seq<Event>)
    requires NoneFinal(h)
    ensures FinalIsLast(h) && !EndsBanned(h) && !EndsWith(h, 1000)
  {
    if h != [] {
      assert !IsFinal(h[|h| - 1]);
    }
  }

  lemma CancellingFollows(h: seq<Event>)
    requires NoneFinal(h) && LastConnected(h) && !EndsClosed(h)
    ensures NextFollows(h, true, Leave(Cancelled)) && FinalIsLast(h)
  {
    hide NoneFinal, LastConnected, FinalIsLast;
    NoneFinalEnds(h);
  }

  /** What follows a close code. */
  lemma ClosingFollows(h: seq<Event>, code: Option<int>)
    requires NoneFinal(h) && LastConnected(h)
    ensures var h' := h + [ClosedWith(code)];
            && FinalIsLast(h')
            && (if code == Some(4008) then NextFollows(h', false, SlowDown) && NoneFinal(h')
                else if code == Some(4914) || code == Some(4915) then NextFollows(h', false, Leave(Banned))
                else if code == Some(1000) then NextFollows(h', false, Leave(Stopped))
                else NextFollows(h', false, Backoff) && NoneFinal(h'))
  {
    hide NoneFinal, LastConnected, FinalIsLast;
    NothingEnds(h, ClosedWith(code));
  }

  lemma RaisingFollows(h: seq<Event>, code: Option<int>)
    requires NoneFinal(h) && LastConnected(h)
    ensures var h' := h + [RaisedWith(code)]; NextFollows(h', false, Backoff) && FinalIsLast(h') && NoneFinal(h')
  {
    hide NoneFinal, LastConnected, FinalIsLast;
    NothingEnds(h, RaisedWith(code));
  }

  /** Frames are received and answers sent, and nothing else. */
  predicate Converses(h0: seq<Event>, h: seq<Event>) {
    h0 <= h && forall k | |h0| <= k < |h| :: h[k].Received? || h[k].Sent?
  }

  lemma ConversingOn(h0: seq<Event>, h: seq<Event>, e: Event)
    requires e.Received? || e.Sent?
    ensures Converses(h0, h0) && (Converses(h0, h) ==> Converses(h0, h + [e]))
  {
  }

  lemma ConversingEnds(h0: seq<Event>, h: seq<Event>)
    requires Converses(h0, h) && NoneFinal(h0) && LastConnected(h0) && !EndsClosed(h0)
    ensures NoneFinal(h) && LastConnected(h) && !EndsClosed(h)
  {
    forall i | 0 <= i < |h| ensures !IsFinal(h[i]) {
      if i < |h0| {
        assert h[i] == h0[i];
      }
    }
    var i :| 0 <= i < |h0| && h0[i].Connected? && forall k | i < k < |h0| :: !h0[k].Started?;
    assert h[i].Connected?;
    forall k | i < k < |h| ensures !h[k].Started? {
      if k < |h0| {
        assert h[k] == h0[k];
      }
    }
    assert |h| == |h0| ==> h == h0;
  }

  /** A connection that is made or breaks off changes none of the loop variables. */
  lemma QuietEvent(h: seq<Event>, e: Event, sessionId: Option<SessionId>, lastSeq: int, refresh: bool)
    requires Tracks(h, sessionId, lastSeq, refresh) && (e.RaisedWith? || (e.Connected? && !refresh))
    ensures Tracks(h + [e], sessionId, lastSeq, refresh) && FailuresCounted(h + [e]) == FailuresCounted(h) && Hears(h, h + [e], [e])
  {
    hide Lawful, LiveSession, LiveSeq, RefreshDue, WasReset, StartsSinceReset, Heard, Hears, AwaitsAnswer;
    Appending(h, e);
  }

  /** One connection, from the handshake to what its end means for the loop. */
  method RunSession(h0: seq<Event>, attempt: Attempt, sessionId0: Option<SessionId>, lastSeq0: int, refresh0: bool, attempts0: int)
    returns (h: seq<Event>, sessionId: Option<SessionId>, lastSeq: int, refresh: bool, attempts: int, next: Next)
    requires attempt.Session? && !refresh0
    requires Tracks(h0, sessionId0, lastSeq0, refresh0) && 0 <= attempts0 == FailuresCounted(h0) - 1
    requires NoneFinal(h0)
    ensures Tracks(h, sessionId, lastSeq, refresh) && 0 <= attempts == FailuresCounted(h) - 1 && attempts <= attempts0
    ensures NextFollows(h, EndingOf(attempt).Cancelling?, next) && FinalIsLast(h) && (next.Leave? || NoneFinal(h))
    ensures Hears(h0, h, HeardInSession(attempt))
  {
    hide Lawful, LiveSession, LiveSeq, RefreshDue, WasReset, StartsSinceReset, Heard, Hears, Read, ReadCount, HeardInSession,
      NoneFinal, LastConnected, EndsWith, FinalIsLast, Converses, NextFollows, Tracks, FailuresCounted;
    QuietEvent(h0, Connected, sessionId0, lastSeq0, refresh0);
    NothingEnds(h0, Connected);
    var raised;
    h, sessionId, lastSeq, refresh, attempts, raised :=
      ReadFrames(h0 + [Connected], attempt.frames, sessionId0, lastSeq0, refresh0, attempts0);
    ghost var h2 := h;
    NothingHeard(h2);
    ConversingEnds(h0 + [Connected], h2);
    CancellingFollows(h2);
    match if raised.Some? then raised.value else attempt.ending {
      case Cancelling =>
        next := Leave(Cancelled);
      case Raised(code) =>
        QuietEvent(h, RaisedWith(code), sessionId, lastSeq, refresh);
        RaisingFollows(h, code);
        h := h + [RaisedWith(code)];
        next := Backoff;
      case Closed(code) =>
        h, sessionId, lastSeq, refresh, next := Close(h, code, sessionId, lastSeq, refresh);
    }
    HearingSession(h0, h0 + [Connected], h2, h, attempt);
  }

  /** One attempt and the failure it adds, unless the loop is to be left. */
  method RunAttempt(h0: seq<Event>, attempt: Attempt, sessionId0: Option<SessionId>, lastSeq0: int, refresh0: bool, attempts0: int)
    returns (h: seq<Event>, sessionId: Option<SessionId>, lastSeq: int, refresh: bool, attempts: int, next: Next)
    requires Tracks(h0, sessionId0, lastSeq0, refresh0) && 0 <= attempts0 == FailuresCounted(h0) <= MAX_RECONNECT_ATTEMPTS
    requires NoneFinal(h0)
    ensures Tracks(h, sessionId, lastSeq, refresh) && 0 <= attempts <= MAX_RECONNECT_ATTEMPTS + 1
    ensures attempts == FailuresCounted(h) - if next.Leave? then 1 else 0
    ensures next.Leave? ==> attempts <= MAX_RECONNECT_ATTEMPTS
    ensures Hears(h0, h, HeardInAttempt(attempt))
    ensures NextFollows(h, attempt.Session? && EndingOf(attempt).Cancelling?, next) && FinalIsLast(h) && (next.Leave? || NoneFinal(h))
  {
    hide Lawful, LiveSession, LiveSeq, RefreshDue, WasReset, StartsSinceReset, Heard, Hears, HeardInSession, AwaitsAnswer,
      EndingOf, FailuresCounted, NoneFinal, LastConnected, EndsWith, FinalIsLast;
    sessionId, lastSeq, attempts := sessionId0, lastSeq0, attempts0;
    h, refresh := BeginAttempt(h0, attempt, sessionId, lastSeq, refresh0, attempts);
    if !attempt.Session? {
      HearingNoMore(h0, h);
      NoneFinalEnds(h);
      attempts, next := attempts + 1, SlowDown;
      return;
    }
    ghost var h1 := h;
    h, sessionId, lastSeq, refresh, attempts, next := RunSession(h, attempt, sessionId, lastSeq, refresh, attempts);
    HearingAdds(h0, h1, h, [Started], HeardInSession(attempt));
    if !next.Leave? {
      attempts := attempts + 1;
    }
  }

  lemma HearingNoMore(h0: seq<Event>, h: seq<Event>)
    ensures Hears(h0, h, [Started]) ==> Hears(h0, h, [Started] + [])
  {
    hide Heard;
    assert [Started] + [] == [Started];
  }

  /** What is known of a script that has been followed so far. */
  ghost predicate Followed(h: seq<Event>, script: seq<Attempt>, n: nat) {
    && n <= |script| && Hears([], h, HeardInScript(script, n)) && NoneFinal(h)
    && forall i: nat | i <= n :: !CancelledIn(script, i)
  }

  lemma FollowedOn(h0: seq<Event>, h: seq<Event>, script: seq<Attempt>, n: nat)
    requires n < |script| && Followed(h0, script, n) && Hears(h0, h, HeardInAttempt(script[n]))
    ensures Hears([], h, HeardInScript(script, n + 1)) && forall i: nat | i <= n :: !CancelledIn(script, i)
    ensures NoneFinal(h) && !CancelledIn(script, n + 1) ==> Followed(h, script, n + 1)
  {
    hide Hears, HeardInAttempt, CancelledIn, NoneFinal;
    HearingAdds([], h0, h, HeardInScript(script, n), HeardInAttempt(script[n]));
  }

  /** The counter of failures against the bound on attempts. */
  lemma FailuresReachBound(h: seq<Event>)
    ensures StartsSinceReset(h) - AttemptBound(h) == FailuresCounted(h) - (MAX_RECONNECT_ATTEMPTS + 1)
  {
  }

  /** The outcome, read off the history: a ban or a normal close is the last event; the loop gives up
      exactly when nothing of that kind has happened and the bound is reached, and tells the error
      callback exactly when the last attempt had a connection that was not rate-limited; else the task
      was cancelled, in the last attempt or because the script has run out. */
  ghost predicate OutcomeFollows(h: seq<Event>, script: seq<Attempt>, used: nat, outcome: Outcome) {
    && (outcome == Banned <==> EndsBanned(h))
    && (outcome == Stopped <==> EndsWith(h, 1000))
    && (outcome.GaveUp? <==> NoneFinal(h) && !CancelledIn(script, used) && StartsSinceReset(h) == AttemptBound(h))
    && (outcome.GaveUp? ==> (outcome.notified <==> LastConnected(h) && !EndsWith(h, 4008)))
    && (outcome == Cancelled ==> NoneFinal(h) && (CancelledIn(script, used) || used == |script|))
  }

  lemma LeavingFollows(h: seq<Event>, script: seq<Attempt>, used: nat, outcome: Outcome)
    requires NextFollows(h, CancelledIn(script, used), Leave(outcome)) && FinalIsLast(h)
    ensures OutcomeFollows(h, script, used, outcome)
  {
    if !EndsBanned(h) && !EndsWith(h, 1000) {
      assert NoneFinal(h) by {
        assert forall i | 0 <= i < |h| - 1 :: h[i] == h[..|h| - 1][i];
      }
    } else {
      assert IsFinal(h[|h| - 1]);
    }
    hide EndsWith, LastConnected, StartsSinceReset, AttemptBound, CancelledIn;
  }

  lemma WhatNext(h: seq<Event>, script: seq<Attempt>, used: nat, next: Next)
    requires NextFollows(h, CancelledIn(script, used), next)
    ensures !next.Leave? ==> !CancelledIn(script, used)
    ensures next.SlowDown? <==> !LastConnected(h) || EndsWith(h, 4008)
  {
    hide EndsWith, LastConnected, CancelledIn;
  }

  lemma RunningOutFollows(h: seq<Event>, script: seq<Attempt>, used: nat)
    requires NoneFinal(h) && !CancelledIn(script, used) && used == |script| && StartsSinceReset(h) != AttemptBound(h)
    ensures OutcomeFollows(h, script, used, Cancelled)
  {
    NoneFinalEnds(h);
    hide EndsWith, LastConnected, StartsSinceReset, AttemptBound, CancelledIn, NoneFinal;
  }

  lemma GivingUpFollows(h: seq<Event>, script: seq<Attempt>, used: nat, notified: bool)
    requires NoneFinal(h) && !CancelledIn(script, used) && StartsSinceReset(h) == AttemptBound(h)
    requires notified <==> LastConnected(h) && !EndsWith(h, 4008)
    ensures OutcomeFollows(h, script, used, GaveUp(notified))
  {
    NoneFinalEnds(h);
    hide EndsWith, LastConnected, StartsSinceReset, AttemptBound, CancelledIn, NoneFinal;
  }

  method ConnectGateway(script: seq<Attempt>) returns (h: seq<Event>, outcome: Outcome, used: nat)
    ensures Lawful(h) && !AwaitsAnswer(h) && used <= |script| && Hears([], h, HeardInScript(script, used))
    ensures StartsSinceReset(h) <= AttemptBound(h)
    ensures FinalIsLast(h) && forall i: nat | i < used :: !CancelledIn(script, i)
    ensures OutcomeFollows(h, script, used, outcome)
  {
    h, used := [], 0;
    var sessionId: Option<SessionId>, lastSeq, attempts, refresh := None, 0, 0, false;
    EmptyHistory();
    NothingHeard([]);
    assert Followed(h, script, used);
    hide Lawful, LiveSession, LiveSeq, RefreshDue, WasReset, StartsSinceReset, Heard, Hears, HeardInScript, HeardInSession,
      HeardInAttempt, AwaitsAnswer, EndingOf, FailuresCounted, AttemptBound, NoneFinal, LastConnected, FinalIsLast, EndsWith,
      OutcomeFollows, NextFollows, CancelledIn;
    while attempts <= MAX_RECONNECT_ATTEMPTS
      invariant used <= |script| && 0 <= attempts <= MAX_RECONNECT_ATTEMPTS + 1
      invariant Tracks(h, sessionId, lastSeq, refresh) && attempts == FailuresCounted(h)
      invariant Followed(h, script, used)
      invariant attempts > MAX_RECONNECT_ATTEMPTS ==> !LastConnected(h) || EndsWith(h, 4008)
      decreases |script| - used
    {
      if used == |script| {
        FailuresReachBound(h);
        RunningOutFollows(h, script, used);
        NoneFinalEnds(h);
        return h, Cancelled, used;
      }
      ghost var h0 := h;
      var next;
      h, sessionId, lastSeq, refresh, attempts, next := RunAttempt(h, script[used], sessionId, lastSeq, refresh, attempts);
      FollowedOn(h0, h, script, used);
      FailuresReachBound(h);
      WhatNext(h, script, used + 1, next);
      used := used + 1;
      match next {
        case Leave(o) =>
          LeavingFollows(h, script, used, o);
          return h, o, used;
        case SlowDown =>
        case Backoff =>
          if attempts > MAX_RECONNECT_ATTEMPTS {
            GivingUpFollows(h, script, used, true);
            return h, GaveUp(true), used;
          }
      }
    }
    FailuresReachBound(h);
    GivingUpFollows(h, script, used, false);
    NoneFinalEnds(h);
    outcome := GaveUp(false);
  }

  /** The start of an attempt: the token is refreshed first when that is due. */
  method BeginAttempt(h0: seq<Event>, attempt: Attempt, ghost sessionId: Option<SessionId>, ghost lastSeq: int,
                      refresh0: bool, attempts: int)
    returns (h: seq<Event>, refresh: bool)
    requires Tracks(h0, sessionId, lastSeq, refresh0) && 0 <= attempts == FailuresCounted(h0) <= MAX_RECONNECT_ATTEMPTS
    requires NoneFinal(h0)
    ensures Tracks(h, sessionId, lastSeq, refresh) && attempts == FailuresCounted(h) - 1
    ensures !attempt.NoUrl? ==> !refresh
    ensures Hears(h0, h, [Started])
    ensures NoneFinal(h) && !LastConnected(h) && !EndsClosed(h)
  {
    hide Lawful, LiveSession, LiveSeq, RefreshDue, WasReset, StartsSinceReset, Heard, Hears, NoneFinal, LastConnected, EndsWith;
    Appending(h0, Started);
    NothingEnds(h0, Started);
    h, refresh := h0 + [Started], refresh0;
    if refresh && (attempt.NoUrl? ==> attempt.refreshed) {
      Appending(h, Refreshed);
      NothingEnds(h, Refreshed);
      HearingNothing(h0, h, h + [Refreshed], [Started]);
      h, refresh := h + [Refreshed], false;
    }
  }

  lemma EmptyHistory()
    ensures Tracks([], None, 0, false) && FailuresCounted([]) == 0
  {
  }
}
