/** Stream sessions of the WeCom AI bot: three maps that must agree, and a queue of chunks per
    session, against the history of publications, deliveries and feedback registrations. */
module StreamSessions {
  import opened Wrappers

  const FEEDBACK_SESSION_TTL := 600.0

  datatype StreamChunk<Text> = StreamChunk(content: Text, isFinal: bool)

  /** A feedback id handed out for a stream. */
  datatype Registration<Id> = Registration(feedback: Id, stream: Id)

  // ---- The message index ----

  /** The index and the live sessions with a message id are inverse to each other. */
  ghost predicate MessagesAgree<Id>(msgIndex: map<Id, Id>, live: map<Id, Option<Id>>) {
    && (forall m | m in msgIndex :: msgIndex[m] in live && live[msgIndex[m]] == Some(m))
    && (forall id | id in live && live[id].Some? :: live[id].value in msgIndex && msgIndex[live[id].value] == id)
  }

  /** Two live sessions never share a message id. */
  lemma OneSessionPerMessage<Id>(msgIndex: map<Id, Id>, live: map<Id, Option<Id>>, a: Id, b: Id)
    requires MessagesAgree(msgIndex, live) && a in live && b in live && live[a].Some? && live[a] == live[b]
    ensures a == b
  {
    assert msgIndex[live[a].value] == a && msgIndex[live[b].value] == b;
  }

  lemma IndexedMessageIsLive<Id>(msgIndex: map<Id, Id>, live: map<Id, Option<Id>>, m: Id)
    requires MessagesAgree(msgIndex, live)
    ensures m in msgIndex <==> exists id :: id in live && live[id] == Some(m)
    ensures m in msgIndex ==> msgIndex[m] in live && live[msgIndex[m]] == Some(m)
  {
  }

  lemma OpeningMessagesAgree<Id>(msgIndex: map<Id, Id>, live: map<Id, Option<Id>>, id: Id, msg: Option<Id>)
    requires MessagesAgree(msgIndex, live) && id !in live && (msg.Some? ==> msg.value !in msgIndex)
    ensures MessagesAgree(if msg.Some? then msgIndex[msg.value := id] else msgIndex, live[id := msg])
  {
  }

  /** The guard on the index when a session expires is always met. */
  lemma ExpiringMessagesAgree<Id>(msgIndex: map<Id, Id>, live: map<Id, Option<Id>>, id: Id)
    requires MessagesAgree(msgIndex, live) && id in live
    ensures live[id].Some? ==> live[id].value in msgIndex && msgIndex[live[id].value] == id
    ensures MessagesAgree(if live[id].Some? then msgIndex - {live[id].value} else msgIndex, live - {id})
  {
  }

  // ---- The feedback index ----

  /** A later feedback id was handed out for the same stream. */
  ghost predicate Superseded<Id>(log: seq<Registration<Id>>, i: nat)
    requires i < |log|
  {
    exists j :: i < j < |log| && log[j].stream == log[i].stream
  }

  /** The latest feedback id handed out for a stream. */
  ghost function LastFeedback<Id>(log: seq<Registration<Id>>, stream: Id): Option<Id> {
    if log == [] then None
    else if log[|log| - 1].stream == stream then Some(log[|log| - 1].feedback)
    else LastFeedback(log[..|log| - 1], stream)
  }

  lemma {:induction false} LastFeedbackIsLast<Id>(log: seq<Registration<Id>>, stream: Id)
    ensures LastFeedback(log, stream).None? <==> forall i | 0 <= i < |log| :: log[i].stream != stream
    ensures LastFeedback(log, stream).Some? ==>
              exists i: nat :: i < |log| && log[i] == Registration(LastFeedback(log, stream).value, stream) && !Superseded(log, i)
  {
    if log != [] {
      var n := |log| - 1;
      if log[n].stream == stream {
        assert !Superseded(log, n);
      } else {
        LastFeedbackIsLast(log[..n], stream);
        if LastFeedback(log, stream).Some? {
          var i: nat :| i < n && log[..n][i] == Registration(LastFeedback(log, stream).value, stream) && !Superseded(log[..n], i);
          forall j | i < j < |log| ensures log[j].stream != log[i].stream {
            if j < n {
              assert log[..n][j] == log[j];
            }
          }
          assert !Superseded(log, i);
        }
      }
    }
  }

  /** An id is in the index exactly when its session is live or a later id superseded it: all ids
      of a live session, and of an expired one all but the last. */
  ghost predicate FeedbackAgrees<Id(!new)>(index: map<Id, Id>, live: set<Id>, log: seq<Registration<Id>>) {
    && (forall i, j | 0 <= i < j < |log| :: log[i].feedback != log[j].feedback)
    && (forall f | f in index :: Registration(f, index[f]) in log)
    && (forall i: nat | i < |log| ::
          (log[i].feedback in index <==> log[i].stream in live || Superseded(log, i)))
  }

  lemma IndexedUnderItsStream<Id(!new)>(index: map<Id, Id>, live: set<Id>, log: seq<Registration<Id>>, i: nat)
    requires FeedbackAgrees(index, live, log) && i < |log| && log[i].feedback in index
    ensures index[log[i].feedback] == log[i].stream
  {
    var f := log[i].feedback;
    var j :| 0 <= j < |log| && log[j] == Registration(f, index[f]);
    assert i == j;
  }

  /** Exactly the live sessions are found, by any id ever handed out for them. */
  lemma LookupFindsLive<Id(!new)>(index: map<Id, Id>, live: set<Id>, log: seq<Registration<Id>>, f: Id)
    requires FeedbackAgrees(index, live, log)
    ensures f in index && index[f] in live <==> exists id :: id in live && Registration(f, id) in log
    ensures forall id | id in live && Registration(f, id) in log :: index[f] == id
  {
    forall id | id in live && Registration(f, id) in log ensures f in index && index[f] == id {
      var i :| 0 <= i < |log| && log[i] == Registration(f, id);
      IndexedUnderItsStream(index, live, log, i);
    }
  }

  lemma RegisteringAgrees<Id(!new)>(index: map<Id, Id>, live: set<Id>, log: seq<Registration<Id>>, f: Id, id: Id)
    requires FeedbackAgrees(index, live, log) && id in live && forall i | 0 <= i < |log| :: log[i].feedback != f
    ensures FeedbackAgrees(index[f := id], live, log + [Registration(f, id)])
  {
    var index', log' := index[f := id], log + [Registration(f, id)];
    forall g | g in index' ensures Registration(g, index'[g]) in log' {
      if g != f {
        assert Registration(g, index[g]) in log;
      } else {
        assert log'[|log|] == Registration(f, id);
      }
    }
    forall i: nat | i < |log'| ensures log'[i].feedback in index' <==> log'[i].stream in live || Superseded(log', i) {
      if i < |log| && log[i].stream !in live {
        assert Superseded(log, i) <==> Superseded(log', i) by {
          if j :| i < j < |log'| && log'[j].stream == log'[i].stream {
            assert j < |log| && log[j].stream == log[i].stream;
          }
          if j :| i < j < |log| && log[j].stream == log[i].stream {
            assert log'[j].stream == log'[i].stream;
          }
        }
      }
    }
  }

  lemma OpeningAgrees<Id(!new)>(index: map<Id, Id>, live: set<Id>, log: seq<Registration<Id>>, id: Id)
    requires FeedbackAgrees(index, live, log) && forall i | 0 <= i < |log| :: log[i].stream != id
    ensures FeedbackAgrees(index, live + {id}, log)
  {
  }

  /** When a session goes, its latest feedback id goes with it. */
  lemma ExpiringAgrees<Id(!new)>(index: map<Id, Id>, live: set<Id>, log: seq<Registration<Id>>, id: Id)
    requires FeedbackAgrees(index, live, log) && id in live
    ensures var last := LastFeedback(log, id);
            FeedbackAgrees(if last.Some? then index - {last.value} else index, live - {id}, log)
  {
    LastFeedbackIsLast(log, id);
    var last := LastFeedback(log, id);
    var index' := if last.Some? then index - {last.value} else index;
    forall i: nat | i < |log| ensures log[i].feedback in index' <==> log[i].stream in live - {id} || Superseded(log, i) {
      if last.Some? {
        var k: nat :| k < |log| && log[k] == Registration(last.value, id) && !Superseded(log, k);
        if log[i].stream == id && i != k {
          assert i < k;
        }
      }
    }
  }

  /** A superseded id is in the index from then on, whatever happens: also when its session is gone. */
  lemma SupersededIdStays<Id(!new)>(log: seq<Registration<Id>>, i: nat, more: seq<Registration<Id>>, index: map<Id, Id>, live: set<Id>)
    requires i < |log| && Superseded(log, i) && FeedbackAgrees(index, live, log + more)
    ensures log[i].feedback in index && index[log[i].feedback] == log[i].stream
  {
    var all := log + more;
    var j :| i < j < |log| && log[j].stream == log[i].stream;
    assert all[j] == log[j] && all[i] == log[i];
    assert Superseded(all, i);
    IndexedUnderItsStream(index, live, all, i);
  }

  /** A redelivery supersedes the id handed out before. */
  lemma RedeliverySupersedes<Id(!new)>(log: seq<Registration<Id>>, i: nat, feedback: Id)
    requires i < |log|
    ensures Superseded(log + [Registration(feedback, log[i].stream)], i)
  {
    var all := log + [Registration(feedback, log[i].stream)];
    assert all[|log|].stream == all[i].stream;
  }

  // ---- Sessions ----

  ghost predicate AnyFinal<Text>(chunks: seq<StreamChunk<Text>>) {
    exists i :: 0 <= i < |chunks| && chunks[i].isFinal
  }

  ghost function Last<T>(s: seq<T>): Option<T> {
    if s == [] then None else Some(s[|s| - 1])
  }

  ghost predicate EndsFinal<Text>(chunks: seq<StreamChunk<Text>>) {
    chunks != [] && chunks[|chunks| - 1].isFinal
  }

  class StreamSession<Id(==, !new), Text> {
    const streamId: Id
    const msgId: Option<Id>
    var lastAccess: real
    var queue: seq<StreamChunk<Text>>
    var finished: bool
    var lastChunk: Option<StreamChunk<Text>>
    var feedbackId: Option<Id>
    ghost var published: seq<StreamChunk<Text>>
    ghost var consumed: seq<StreamChunk<Text>>
    ghost var marked: bool

    ghost predicate Valid()
      reads this
    {
      && consumed + queue == published
      && lastChunk == Last(published)
      && (finished <==> marked || AnyFinal(published))
    }

    constructor (streamId: Id, msgId: Option<Id>, now: real)
      ensures Valid() && this.streamId == streamId && this.msgId == msgId && lastAccess == now
      ensures published == consumed == [] && !finished && feedbackId == None
    {
      this.streamId, this.msgId, lastAccess := streamId, msgId, now;
      queue, finished, lastChunk, feedbackId := [], false, None, None;
      published, consumed, marked := [], [], false;
    }

    method Put(chunk: StreamChunk<Text>, now: real)
      requires Valid()
      modifies this
      ensures Valid() && lastAccess == now && published == old(published) + [chunk] && consumed == old(consumed)
      ensures marked == old(marked) && feedbackId == old(feedbackId) && (old(finished) || chunk.isFinal <==> finished)
    {
      assert AnyFinal(published + [chunk]) <==> AnyFinal(published) || chunk.isFinal by {
        assert (published + [chunk])[|published|] == chunk;
        forall i | 0 <= i < |published| ensures (published + [chunk])[i] == published[i] {}
      }
      lastAccess, lastChunk, queue := now, Some(chunk), queue + [chunk];
      published := published + [chunk];
      if chunk.isFinal {
        finished := true;
      }
    }

    /** What a consumer does once its wait ends, with a chunk or (`delivered` false) by timing out. */
    method Take(now: real, delivered: bool) returns (r: Option<StreamChunk<Text>>)
      requires Valid() && (delivered ==> queue != [])
      modifies this
      ensures Valid() && published == old(published) && marked == old(marked) && finished == old(finished)
      ensures feedbackId == old(feedbackId) && lastAccess == if delivered then now else old(lastAccess)
      ensures delivered ==> r.Some? && consumed == old(consumed) + [r.value] && |consumed| <= |published|
                            && r.value == published[|consumed| - 1]
      ensures !delivered ==> consumed == old(consumed) && queue == old(queue) && r == if finished then Last(published) else None
    {
      if delivered {
        var chunk := queue[0];
        assert published[|consumed|] == chunk;
        lastAccess, queue := now, queue[1..];
        consumed := consumed + [chunk];
        if chunk.isFinal {
          finished := true;
        }
        return Some(chunk);
      }
      r := if finished && lastChunk.Some? then lastChunk else None;
    }
  }

  class StreamSessionManager<Id(==, !new), Text> {
    const ttl: real
    var sessions: map<Id, StreamSession<Id, Text>>
    var msgIndex: map<Id, Id>
    var feedbackIndex: map<Id, Id>
    ghost var everOpened: set<Id>
    ghost var registrations: seq<Registration<Id>>

    ghost function Live(): map<Id, Option<Id>>
      reads this
    {
      map id | id in sessions :: sessions[id].msgId
    }

    ghost predicate Valid()
      reads this, sessions.Values
    {
      && (forall id | id in sessions :: sessions[id].streamId == id && sessions[id].Valid())
      && (forall id | id in sessions :: sessions[id].feedbackId == LastFeedback(registrations, id))
      && sessions.Keys <= everOpened
      && (forall i | 0 <= i < |registrations| :: registrations[i].stream in everOpened)
      && MessagesAgree(msgIndex, Live())
      && FeedbackAgrees(feedbackIndex, sessions.Keys, registrations)
    }

    constructor (ttl: real)
      ensures Valid() && this.ttl == ttl && sessions == map[] && everOpened == {} && registrations == []
    {
      this.ttl, sessions, msgIndex, feedbackIndex, everOpened, registrations := ttl, map[], map[], map[], {}, [];
    }

    /** A redelivered message finds its live session again; only then is the session not new.  The
        id of a new session is fresh, as a random UUID is. */
    method CreateOrGet(msgId: Option<Id>, freshId: Id, now: real) returns (session: StreamSession<Id, Text>, isNew: bool)
      requires Valid() && freshId !in everOpened
      modifies this`sessions, this`msgIndex, this`everOpened, sessions.Values
      ensures Valid() && session.streamId in sessions && sessions[session.streamId] == session
      ensures isNew <==> !(msgId.Some? && exists id :: id in old(sessions) && old(sessions)[id].msgId == msgId)
      ensures session.msgId == msgId && session.lastAccess == now
      ensures !isNew ==> sessions == old(sessions) && everOpened == old(everOpened)
                         && unchanged(old(sessions.Values) - {session})
                         && unchanged(session`feedbackId, session`published, session`consumed, session`marked)
      ensures isNew ==> fresh(session) && sessions == old(sessions)[freshId := session]
                        && everOpened == old(everOpened) + {freshId}
                        && unchanged(old(sessions.Values)) && session.published == session.consumed == []
    {
      hide MessagesAgree, FeedbackAgrees;
      if msgId.Some? {
        IndexedMessageIsLive(msgIndex, Live(), msgId.value);
        if msgId.value in msgIndex {
          session := sessions[msgIndex[msgId.value]];
          session.lastAccess := now;
          return session, false;
        }
        assert forall id | id in sessions :: Live()[id] == sessions[id].msgId;
      }
      session := Open(msgId, freshId, now);
      return session, true;
    }

    method Open(msgId: Option<Id>, freshId: Id, now: real) returns (session: StreamSession<Id, Text>)
      requires Valid() && freshId !in everOpened && (msgId.Some? ==> msgId.value !in msgIndex)
      modifies this`sessions, this`msgIndex, this`everOpened
      ensures Valid() && fresh(session) && sessions == old(sessions)[freshId := session]
      ensures everOpened == old(everOpened) + {freshId} && session.streamId == freshId && session.msgId == msgId
      ensures session.lastAccess == now && session.published == session.consumed == []
    {
      hide MessagesAgree, FeedbackAgrees, LastFeedback, StreamSession.Valid;
      session := new StreamSession(freshId, msgId, now);
      LastFeedbackIsLast(registrations, freshId);
      OpeningAgrees(feedbackIndex, sessions.Keys, registrations, freshId);
      OpeningMessagesAgree(msgIndex, Live(), freshId, msgId);
      ghost var live := Live();
      if msgId.Some? {
        msgIndex := msgIndex[msgId.value := freshId];
      }
      sessions, everOpened := sessions[freshId := session], everOpened + {freshId};
      forall id | id in sessions
        ensures sessions[id].streamId == id && sessions[id].Valid() && sessions[id].feedbackId == LastFeedback(registrations, id)
      {
        if id != freshId {
          assert sessions[id] == old(sessions)[id];
        }
      }
      assert Live() == live[freshId := msgId];
      assert sessions.Keys == old(sessions).Keys + {freshId};
    }

    /** Hand out a feedback id, a fresh UUID, for a live session. */
    method RegisterFeedbackId(session: StreamSession<Id, Text>, feedbackId: Id)
      requires Valid() && session in sessions.Values
      requires forall i | 0 <= i < |registrations| :: registrations[i].feedback != feedbackId
      modifies session`feedbackId, this`feedbackIndex, this`registrations
      ensures Valid() && session.feedbackId == Some(feedbackId)
      ensures registrations == old(registrations) + [Registration(feedbackId, session.streamId)]
      ensures forall i | 0 <= i < |registrations| - 1 && registrations[i].stream == session.streamId :: Superseded(registrations, i)
    {
      hide MessagesAgree, FeedbackAgrees;
      var id := session.streamId;
      RegisteringAgrees(feedbackIndex, sessions.Keys, registrations, feedbackId, id);
      ghost var live := Live();
      session.feedbackId := Some(feedbackId);
      feedbackIndex := feedbackIndex[feedbackId := id];
      forall i | 0 <= i < |registrations| && registrations[i].stream == id
        ensures Superseded(registrations + [Registration(feedbackId, id)], i)
      {
        RedeliverySupersedes(registrations, i, feedbackId);
      }
      registrations := registrations + [Registration(feedbackId, id)];
      assert registrations[..|registrations| - 1] == old(registrations);
      assert Live() == live;
    }

    /** The session found is live and was given this id; nothing is found only when there is none. */
    method GetSessionByFeedbackId(feedbackId: Option<Id>) returns (r: Option<StreamSession<Id, Text>>)
      requires Valid()
      ensures r.Some? <==> feedbackId.Some? && exists id :: id in sessions && Registration(feedbackId.value, id) in registrations
      ensures r.Some? ==> r.value.streamId in sessions && sessions[r.value.streamId] == r.value
                          && Registration(feedbackId.value, r.value.streamId) in registrations
    {
      hide MessagesAgree;
      if feedbackId.None? {
        return None;
      }
      LookupFindsLive(feedbackIndex, sessions.Keys, registrations, feedbackId.value);
      hide FeedbackAgrees;
      if feedbackId.value in feedbackIndex && feedbackIndex[feedbackId.value] in sessions {
        return Some(sessions[feedbackIndex[feedbackId.value]]);
      }
      return None;
    }

    /** A superseded feedback id is in the index of every state to come, its session live or not. */
    lemma SupersededFeedbackStays(i: nat)
      requires Valid() && i < |registrations| && Superseded(registrations, i)
      ensures registrations[i].feedback in feedbackIndex
      ensures feedbackIndex[registrations[i].feedback] == registrations[i].stream
    {
      assert registrations + [] == registrations;
      SupersededIdStays(registrations, i, [], feedbackIndex, sessions.Keys);
    }

    ghost function Target(id: Id): set<object>
      reads this
    {
      if id in sessions then {sessions[id]} else {}
    }

    method Publish(streamId: Id, chunk: StreamChunk<Text>, now: real) returns (ok: bool)
      requires Valid()
      modifies Target(streamId)
      ensures Valid() && ok == (streamId in sessions)
      ensures ok ==>
                && sessions[streamId].published == old(sessions[streamId].published) + [chunk]
                && sessions[streamId].lastAccess == now
                && sessions[streamId].consumed == old(sessions[streamId].consumed)
                && sessions[streamId].marked == old(sessions[streamId].marked)
                && sessions[streamId].feedbackId == old(sessions[streamId].feedbackId)
                && (sessions[streamId].finished <==> old(sessions[streamId].finished) || chunk.isFinal)
    {
      hide MessagesAgree, FeedbackAgrees;
      if streamId !in sessions {
        return false;
      }
      ghost var live := Live();
      sessions[streamId].Put(chunk, now);
      assert Live() == live;
      return true;
    }

    /** A consumer before its wait.  It keeps the session, which may expire while it waits. */
    method BeginConsume(streamId: Id, now: real) returns (r: Option<StreamSession<Id, Text>>)
      requires Valid()
      modifies Target(streamId)
      ensures Valid() && r == if streamId in sessions then Some(sessions[streamId]) else None
      ensures r.Some? ==>
                && r.value.lastAccess == now
                && unchanged(r.value`published, r.value`consumed, r.value`queue)
                && unchanged(r.value`marked, r.value`finished, r.value`feedbackId)
    {
      hide MessagesAgree, FeedbackAgrees;
      if streamId !in sessions {
        return None;
      }
      ghost var live := Live();
      sessions[streamId].lastAccess := now;
      assert Live() == live;
      return Some(sessions[streamId]);
    }

    /** A consumer after its wait, on the session it holds, live or expired.  Chunks come in the
        order of publication; a drained queue gives the last chunk once the session is finished. */
    method EndConsume(session: StreamSession<Id, Text>, now: real, delivered: bool) returns (r: Option<StreamChunk<Text>>)
      requires Valid() && session.Valid() && (delivered ==> session.queue != [])
      modifies session
      ensures Valid() && session.Valid() && session.published == old(session.published)
      ensures session.marked == old(session.marked) && session.finished == old(session.finished)
      ensures delivered ==> r.Some? && session.consumed == old(session.consumed) + [r.value]
                            && session.consumed <= session.published
      ensures !delivered ==> session.consumed == old(session.consumed) && session.queue == old(session.queue)
                             && r == if session.finished then Last(session.published) else None
      ensures old(session.queue) == [] && EndsFinal(session.published) ==> r == Last(session.published)
    {
      hide MessagesAgree, FeedbackAgrees;
      ghost var live := Live();
      r := session.Take(now, delivered);
      assert Live() == live;
    }

    method MarkFinished(streamId: Id, now: real)
      requires Valid()
      modifies Target(streamId)
      ensures Valid()
      ensures streamId in sessions ==>
                && sessions[streamId].finished && sessions[streamId].marked && sessions[streamId].lastAccess == now
                && sessions[streamId].published == old(sessions[streamId].published)
                && sessions[streamId].consumed == old(sessions[streamId].consumed)
                && sessions[streamId].queue == old(sessions[streamId].queue)
                && sessions[streamId].feedbackId == old(sessions[streamId].feedbackId)
    {
      hide MessagesAgree, FeedbackAgrees;
      if streamId in sessions {
        ghost var live := Live();
        var session := sessions[streamId];
        session.finished, session.lastAccess, session.marked := true, now, true;
        assert Live() == live;
      }
    }

    predicate Overdue(session: StreamSession<Id, Text>, now: real)
      reads session
    {
      now - session.lastAccess > if session.feedbackId.Some? then FEEDBACK_SESSION_TTL else ttl
    }

    /** Exactly the overdue sessions go; `Valid` says what goes from the two indices with them. */
    method Cleanup(now: real)
      requires Valid()
      modifies this`sessions, this`msgIndex, this`feedbackIndex
      ensures Valid()
      ensures forall id :: id in sessions <==> id in old(sessions) && !Overdue(old(sessions)[id], now)
      ensures forall id | id in sessions :: sessions[id] == old(sessions)[id]
    {
      hide StreamSessionManager.Valid;
      var expired := set id | id in sessions && Overdue(sessions[id], now);
      var todo := expired;
      while todo != {}
        invariant Valid() && todo <= expired
        invariant sessions == old(sessions) - (expired - todo)
      {
        var id :| id in todo;
        Pop(id);
        todo := todo - {id};
      }
    }

    method Pop(id: Id)
      requires Valid() && id in sessions
      modifies this`sessions, this`msgIndex, this`feedbackIndex
      ensures Valid() && sessions == old(sessions) - {id}
    {
      hide MessagesAgree, FeedbackAgrees, LastFeedback, StreamSession.Valid;
      var session := sessions[id];
      ghost var live := Live();
      ExpiringMessagesAgree(msgIndex, live, id);
      ExpiringAgrees(feedbackIndex, sessions.Keys, registrations, id);
      sessions := sessions - {id};
      assert Live() == live - {id};
      assert sessions.Keys == old(sessions).Keys - {id};
      if session.msgId.Some? && session.msgId.value in msgIndex && msgIndex[session.msgId.value] == id {
        msgIndex := msgIndex - {session.msgId.value};
      }
      if session.feedbackId.Some? {
        feedbackIndex := feedbackIndex - {session.feedbackId.value};
      }
    }
  }
}
