/** Admission of webhook events: a TTL table ordered by last sighting, a bound on its size, a bound
    on pending tasks, and forgetting on overload - against the log of every sighting. */
module WebhookAdmission {
  import opened Wrappers

  const DEDUP_TTL_SECONDS := 600.0
  const DEDUP_MAX_EVENTS := 4096
  const MAX_PENDING_EVENTS := 256

  datatype Outcome = Dispatched | Duplicate | Refused | Failed

  /** An event with an id, when it arrived, and what became of it. */
  datatype Sighting<Id> = Sighting(id: Id, at: real, outcome: Outcome)

  datatype Entry<Id> = Entry(id: Id, seenAt: real)

  predicate IsRemembered(o: Outcome) {
    o.Dispatched? || o.Duplicate?
  }

  ghost predicate Ordered<Id>(log: seq<Sighting<Id>>, now: real) {
    && (forall i, j | 0 <= i <= j < |log| :: log[i].at <= log[j].at)
    && (forall i | 0 <= i < |log| :: log[i].at <= now)
  }

  /** The last sighting of an id that was dispatched or recognised. */
  ghost predicate LastRemembered<Id>(log: seq<Sighting<Id>>, k: nat) {
    && k < |log| && IsRemembered(log[k].outcome)
    && forall j | k < j < |log| && log[j].id == log[k].id :: !IsRemembered(log[j].outcome)
  }

  ghost predicate Expired<Id>(log: seq<Sighting<Id>>, k: nat, now: real)
    requires k < |log|
  {
    now - log[k].at > DEDUP_TTL_SECONDS
  }

  /** At least 4096 other ids have been sighted since. */
  ghost predicate Displaced<Id(!new)>(log: seq<Sighting<Id>>, k: nat)
    requires k < |log|
  {
    exists others: set<Id> :: |others| >= DEDUP_MAX_EVENTS && log[k].id !in others && SightedAfter(log, k, others)
  }

  ghost predicate SightedAfter<Id>(log: seq<Sighting<Id>>, k: nat, ids: set<Id>) {
    forall id | id in ids :: exists j :: k < j < |log| && log[j].id == id
  }

  /** Entry `p` of the table is the sighting `idx[p]`, the last of its id; later entries are later sightings. */
  ghost predicate TableMatches<Id>(seen: seq<Entry<Id>>, idx: seq<nat>, log: seq<Sighting<Id>>) {
    && |seen| == |idx|
    && (forall p | 0 <= p < |idx| :: idx[p] < |log| && seen[p] == Entry(log[idx[p]].id, log[idx[p]].at)
                                    && IsRemembered(log[idx[p]].outcome))
    && (forall p, k | 0 <= p < |idx| && idx[p] < k < |log| :: log[k].id != seen[p].id)
    && (forall p, q | 0 <= p < q < |idx| :: idx[p] < idx[q])
  }

  /** Nothing remembered is missing from the table without a reason. */
  ghost predicate Accounted<Id(!new)>(idx: seq<nat>, log: seq<Sighting<Id>>, now: real) {
    forall k: nat | LastRemembered(log, k) :: k in idx || Expired(log, k, now) || Displaced(log, k)
  }

  lemma TableIsDistinct<Id>(seen: seq<Entry<Id>>, idx: seq<nat>, log: seq<Sighting<Id>>)
    requires TableMatches(seen, idx, log)
    ensures forall p, q | 0 <= p < q < |seen| :: seen[p].id != seen[q].id
  {
    forall p, q | 0 <= p < q < |seen| ensures seen[p].id != seen[q].id {
      assert idx[p] < idx[q] && log[idx[q]].id == seen[q].id;
    }
  }

  lemma TableIsOrdered<Id>(seen: seq<Entry<Id>>, idx: seq<nat>, log: seq<Sighting<Id>>, now: real)
    requires TableMatches(seen, idx, log) && Ordered(log, now)
    ensures forall p, q | 0 <= p <= q < |seen| :: seen[p].seenAt <= seen[q].seenAt <= now
  {
    forall p, q | 0 <= p <= q < |seen| ensures seen[p].seenAt <= seen[q].seenAt <= now {
      assert p < q ==> idx[p] < idx[q];
    }
  }

  // ---- The table operations on the log ----

  lemma DroppingHead<Id>(seen: seq<Entry<Id>>, idx: seq<nat>, log: seq<Sighting<Id>>, d: nat)
    requires TableMatches(seen, idx, log) && d <= |seen|
    ensures TableMatches(seen[d..], idx[d..], log)
  {
  }

  lemma PurgingAccounts<Id(!new)>(seen: seq<Entry<Id>>, idx: seq<nat>, log: seq<Sighting<Id>>, d: nat, before: real, now: real)
    requires TableMatches(seen, idx, log) && Accounted(idx, log, before) && before <= now && d <= |seen|
    requires forall p | 0 <= p < d :: seen[p].seenAt < now - DEDUP_TTL_SECONDS
    ensures Accounted(idx[d..], log, now)
  {
    forall k: nat | LastRemembered(log, k) ensures k in idx[d..] || Expired(log, k, now) || Displaced(log, k) {
      if k in idx {
        var p :| 0 <= p < |idx| && idx[p] == k;
        if d <= p {
          assert idx[d..][p - d] == k;
        }
      }
    }
  }

  function Without<T>(s: seq<T>, p: nat): seq<T>
    requires p < |s|
  {
    s[..p] + s[p + 1..]
  }

  ghost function Seen<Id>(log: seq<Sighting<Id>>, id: Id, now: real, o: Outcome): seq<Sighting<Id>> {
    log + [Sighting(id, now, o)]
  }

  lemma MonotoneDisplacement<Id(!new)>(log: seq<Sighting<Id>>, s: Sighting<Id>, k: nat)
    requires k < |log| && Displaced(log, k)
    ensures Displaced(log + [s], k)
  {
    var others :| |others| >= DEDUP_MAX_EVENTS && log[k].id !in others && SightedAfter(log, k, others);
    forall id | id in others ensures exists j :: k < j < |log + [s]| && (log + [s])[j].id == id {
      var j :| k < j < |log| && log[j].id == id;
      assert (log + [s])[j].id == id;
    }
    assert SightedAfter(log + [s], k, others);
  }

  /** A sighting of an id at position `p` of the table moves it to the end. */
  lemma ResightingMatches<Id>(seen: seq<Entry<Id>>, idx: seq<nat>, log: seq<Sighting<Id>>, p: nat, s: Sighting<Id>)
    requires TableMatches(seen, idx, log) && p < |seen| && seen[p].id == s.id && IsRemembered(s.outcome)
    ensures TableMatches(Without(seen, p) + [Entry(s.id, s.at)], Without(idx, p) + [|log|], log + [s])
  {
    TableIsDistinct(seen, idx, log);
    var seen', idx', log' := Without(seen, p) + [Entry(s.id, s.at)], Without(idx, p) + [|log|], log + [s];
    forall q | 0 <= q < |idx'| - 1
      ensures var o := if q < p then q else q + 1; idx'[q] == idx[o] && seen'[q] == seen[o] && seen[o].id != s.id
    {
    }
  }

  lemma FirstSightingMatches<Id>(seen: seq<Entry<Id>>, idx: seq<nat>, log: seq<Sighting<Id>>, s: Sighting<Id>)
    requires TableMatches(seen, idx, log) && IsRemembered(s.outcome) && forall p | 0 <= p < |seen| :: seen[p].id != s.id
    ensures TableMatches(seen + [Entry(s.id, s.at)], idx + [|log|], log + [s]) && |idx| == |seen|
  {
  }

  /** One more sighting; only the place of its own id in the table may go. */
  lemma SightingAccounts<Id(!new)>(idx: seq<nat>, idx': seq<nat>, log: seq<Sighting<Id>>, s: Sighting<Id>, now: real)
    requires Accounted(idx, log, now) && IsRemembered(s.outcome) && |log| in idx'
    requires forall k | k in idx && k < |log| && log[k].id != s.id :: k in idx'
    ensures Accounted(idx', log + [s], now)
  {
    var log' := log + [s];
    forall k: nat | LastRemembered(log', k) ensures k in idx' || Expired(log', k, now) || Displaced(log', k) {
      if k < |log| {
        assert log'[|log|].id != log'[k].id;
        assert LastRemembered(log, k) by {
          assert forall j | k < j < |log| :: log'[j] == log[j];
        }
        if Displaced(log, k) {
          MonotoneDisplacement(log, s, k);
        }
      }
    }
  }

  lemma {:induction false} DistinctIds<Id>(seen: seq<Entry<Id>>) returns (ids: set<Id>)
    requires forall p, q | 0 <= p < q < |seen| :: seen[p].id != seen[q].id
    ensures |ids| == |seen| && forall id :: id in ids <==> exists p :: 0 <= p < |seen| && seen[p].id == id
  {
    ids := {};
    for n := 0 to |seen|
      invariant |ids| == n && forall id :: id in ids <==> exists p :: 0 <= p < n && seen[p].id == id
    {
      ids := ids + {seen[n].id};
    }
  }

  /** Evicting the head of an overfull table: 4096 more recent ids have displaced it. */
  lemma EvictingAccounts<Id(!new)>(seen: seq<Entry<Id>>, idx: seq<nat>, log: seq<Sighting<Id>>, now: real)
    requires TableMatches(seen, idx, log) && Accounted(idx, log, now) && |seen| > DEDUP_MAX_EVENTS
    ensures Accounted(idx[1..], log, now)
  {
    TableIsDistinct(seen, idx, log);
    var k := idx[0];
    var others := DistinctIds(seen[1..]);
    forall id | id in others ensures exists j :: k < j < |log| && log[j].id == id {
      var p :| 0 <= p < |seen[1..]| && seen[1..][p].id == id;
      assert idx[p + 1] > k && log[idx[p + 1]].id == id;
    }
    assert SightedAfter(log, k, others) && log[k].id !in others;
    forall m: nat | LastRemembered(log, m) ensures m in idx[1..] || Expired(log, m, now) || Displaced(log, m) {
      if m in idx && m != k {
        var p :| 0 <= p < |idx| && idx[p] == m;
        assert idx[1..][p - 1] == m;
      }
    }
  }

  /** An id that is not in the table has no live claim: expired, displaced, or never remembered. */
  ghost predicate NoLiveSighting<Id(!new)>(log: seq<Sighting<Id>>, id: Id, now: real) {
    forall k: nat | LastRemembered(log, k) && log[k].id == id :: Expired(log, k, now) || Displaced(log, k)
  }

  lemma AbsentHasNoLiveSighting<Id(!new)>(seen: seq<Entry<Id>>, idx: seq<nat>, log: seq<Sighting<Id>>, id: Id, now: real)
    requires TableMatches(seen, idx, log) && Accounted(idx, log, now) && forall p | 0 <= p < |seen| :: seen[p].id != id
    ensures NoLiveSighting(log, id, now)
  {
    assert forall p | 0 <= p < |idx| :: log[idx[p]].id == seen[p].id;
  }

  /** Turning the last sighting into a refused one and dropping its entry. */
  lemma ForgettingMatches<Id(!new)>(seen: seq<Entry<Id>>, idx: seq<nat>, log: seq<Sighting<Id>>, s: Sighting<Id>, s': Sighting<Id>)
    requires seen != [] && TableMatches(seen, idx, log + [s]) && seen[|seen| - 1].id == s.id
    requires s' == s.(outcome := s'.outcome)
    ensures TableMatches(seen[..|seen| - 1], idx[..|seen| - 1], log + [s'])
    ensures forall p | 0 <= p < |seen| - 1 :: seen[p].id != s.id
    ensures |idx| == |seen| && idx[|idx| - 1] == |log|
  {
    TableIsDistinct(seen, idx, log + [s]);
    var n := |seen| - 1;
    assert (log + [s])[|log|].id == seen[n].id;
    assert idx[n] == |log|;
    forall p | 0 <= p < n ensures idx[p] < |log| && (log + [s'])[idx[p]] == (log + [s])[idx[p]] {
      assert idx[p] < idx[n];
    }
    assert forall k | 0 <= k <= |log| :: (log + [s'])[k].id == (log + [s])[k].id;
  }

  lemma ForgettingAccounts<Id(!new)>(idx: seq<nat>, log: seq<Sighting<Id>>, s: Sighting<Id>, s': Sighting<Id>, now: real)
    requires Accounted(idx, log + [s], now) && NoLiveSighting(log, s.id, now)
    requires s' == s.(outcome := s'.outcome) && !IsRemembered(s'.outcome) && IsRemembered(s.outcome)
    requires idx != [] && idx[|idx| - 1] == |log|
    ensures Accounted(idx[..|idx| - 1], log + [s'], now)
  {
    var log1, log2 := log + [s], log + [s'];
    forall k: nat | LastRemembered(log2, k) ensures k in idx[..|idx| - 1] || Expired(log2, k, now) || Displaced(log2, k) {
      assert k < |log|;
      if log[k].id == s.id {
        assert LastRemembered(log, k) by {
          assert forall j | k < j < |log| :: log2[j] == log[j];
        }
        if Displaced(log, k) {
          MonotoneDisplacement(log, s', k);
        }
      } else {
        assert LastRemembered(log1, k) by {
          assert forall j | k < j < |log1| && j < |log| :: log2[j] == log1[j];
        }
        if k in idx {
          var p :| 0 <= p < |idx| && idx[p] == k;
          assert idx[..|idx| - 1][p] == k;
        } else if Displaced(log1, k) {
          SameIdsDisplace(log1, log2, k);
        }
      }
    }
  }

  lemma SameIdsDisplace<Id(!new)>(log1: seq<Sighting<Id>>, log2: seq<Sighting<Id>>, k: nat)
    requires k < |log1| == |log2| && Displaced(log1, k) && forall j | 0 <= j < |log1| :: log1[j].id == log2[j].id
    ensures Displaced(log2, k)
  {
    var others :| |others| >= DEDUP_MAX_EVENTS && log1[k].id !in others && SightedAfter(log1, k, others);
    assert SightedAfter(log2, k, others);
  }

  ghost predicate InTable<Id>(seen: seq<Entry<Id>>, id: Id) {
    exists p :: 0 <= p < |seen| && seen[p].id == id
  }

  /** The table has an unexpired entry for the id. */
  ghost predicate LiveInTable<Id>(seen: seq<Entry<Id>>, id: Id, now: real) {
    exists p :: 0 <= p < |seen| && seen[p].id == id && now - seen[p].seenAt <= DEDUP_TTL_SECONDS
  }

  lemma KeptIsLive<Id(!new)>(seen: seq<Entry<Id>>, kept: seq<Entry<Id>>, d: nat, now: real)
    requires d <= |seen| && kept == seen[d..]
    requires forall p, q | 0 <= p <= q < |seen| :: seen[p].seenAt <= seen[q].seenAt
    requires forall p | 0 <= p < d :: seen[p].seenAt < now - DEDUP_TTL_SECONDS
    requires kept == [] || kept[0].seenAt >= now - DEDUP_TTL_SECONDS
    ensures forall p | 0 <= p < |kept| :: now - kept[p].seenAt <= DEDUP_TTL_SECONDS
    ensures forall id :: InTable(kept, id) <==> LiveInTable(seen, id, now)
  {
    assert forall p | d <= p < |seen| :: seen[p] == kept[p - d] && seen[d].seenAt <= seen[p].seenAt;
  }

  class WebhookIntake<Id(==, !new)> {
    var seen: seq<Entry<Id>>
    var tasks: set<nat>
    ghost var idx: seq<nat>
    ghost var log: seq<Sighting<Id>>
    ghost var lastCall: real

    ghost predicate Valid()
      reads this
    {
      && Ordered(log, lastCall) && TableMatches(seen, idx, log) && Accounted(idx, log, lastCall)
      && |seen| <= DEDUP_MAX_EVENTS && |tasks| <= MAX_PENDING_EVENTS
    }

    constructor (now: real)
      ensures Valid() && log == [] && tasks == {} && lastCall == now
    {
      seen, tasks, idx, log, lastCall := [], {}, [], [], now;
    }

    method Find(id: Id) returns (p: nat)
      ensures p <= |seen| && (p < |seen| ==> seen[p].id == id)
      ensures p == |seen| ==> !InTable(seen, id)
    {
      p := 0;
      while p < |seen| && seen[p].id != id
        invariant p <= |seen| && forall q | 0 <= q < p :: seen[q].id != id
      {
        p := p + 1;
      }
    }

    /** Purge from the head only; with an ordered table this removes every expired entry. */
    method Purge(now: real)
      requires Valid() && now >= lastCall
      modifies this`seen, this`idx, this`lastCall
      ensures Valid() && lastCall == now
      ensures forall p | 0 <= p < |seen| :: now - seen[p].seenAt <= DEDUP_TTL_SECONDS
      ensures forall id :: InTable(seen, id) <==> LiveInTable(old(seen), id, now)
    {
      var expiresBefore := now - DEDUP_TTL_SECONDS;
      TableIsOrdered(seen, idx, log, lastCall);
      var kept := seen;
      ghost var d := 0;
      while kept != [] && kept[0].seenAt < expiresBefore
        invariant d <= |seen| && kept == seen[d..]
        invariant forall p | 0 <= p < d :: seen[p].seenAt < expiresBefore
      {
        kept, d := kept[1..], d + 1;
      }
      DroppingHead(seen, idx, log, d);
      PurgingAccounts(seen, idx, log, d, lastCall, now);
      hide TableMatches, Accounted;
      KeptIsLive(seen, kept, d, now);
      seen, idx, lastCall := kept, idx[d..], now;
    }

    method IsDuplicateWebhookEvent(event: Option<Id>, now: real) returns (duplicate: bool)
      requires Valid() && now >= lastCall
      modifies this`seen, this`idx, this`log, this`lastCall
      ensures Valid()
      ensures event.None? ==> !duplicate && seen == old(seen) && log == old(log) && lastCall == old(lastCall)
      ensures event.Some? ==>
                && lastCall == now
                && (duplicate <==> LiveInTable(old(seen), event.value, now))
                && log == Seen(old(log), event.value, now, if duplicate then Duplicate else Dispatched)
                && (!duplicate ==> NoLiveSighting(old(log), event.value, now)
                                   && seen != [] && seen[|seen| - 1].id == event.value)
    {
      if event.None? {
        return false;
      }
      var id := event.value;
      Purge(now);
      var p := Find(id);
      if p < |seen| {
        MoveToEnd(p, Sighting(id, now, Duplicate), now);
        return true;
      }
      AbsentHasNoLiveSighting(seen, idx, log, id, now);
      Insert(id, now, Sighting(id, now, Dispatched));
      return false;
    }

    method MoveToEnd(p: nat, ghost s: Sighting<Id>, now: real)
      requires Valid() && p < |seen| && seen[p].id == s.id && s.at == lastCall == now && IsRemembered(s.outcome)
      modifies this`seen, this`idx, this`log
      ensures Valid() && log == old(log) + [s]
    {
      hide TableMatches, Accounted, LastRemembered;
      ResightingMatches(seen, idx, log, p, s);
      MovedToEnd(seen, idx, log, p, s, now);
      seen, idx, log := Without(seen, p) + [Entry(seen[p].id, now)], Without(idx, p) + [|log|], log + [s];
    }

    /** Add a new id, evicting the oldest while there are too many. */
    method Insert(id: Id, now: real, ghost s: Sighting<Id>)
      requires Valid() && !InTable(seen, id) && now == lastCall && s == Sighting(id, now, Dispatched)
      modifies this`seen, this`idx, this`log
      ensures Valid() && log == old(log) + [s] && seen != [] && seen[|seen| - 1].id == id
    {
      hide TableMatches, Accounted, LastRemembered;
      FirstSightingMatches(seen, idx, log, s);
      SightingAccounts(idx, idx + [|log|], log, s, now);
      seen, idx, log := seen + [Entry(id, now)], idx + [|log|], log + [s];
      while |seen| > DEDUP_MAX_EVENTS
        invariant 0 < |seen| == |idx| <= DEDUP_MAX_EVENTS + 1 && seen[|seen| - 1].id == id
        invariant log == old(log) + [s] && Ordered(log, now)
        invariant TableMatches(seen, idx, log) && Accounted(idx, log, now)
      {
        EvictingAccounts(seen, idx, log, now);
        DroppingHead(seen, idx, log, 1);
        seen, idx := seen[1..], idx[1..];
      }
    }

    /** Take the id just recorded out again: the sighting is kept in the log as not remembered. */
    method ForgetWebhookEvent(event: Option<Id>, ghost before: seq<Sighting<Id>>, ghost o: Outcome)
      requires Valid() && !IsRemembered(o)
      requires event.Some? ==>
                 && log == Seen(before, event.value, lastCall, Dispatched) && NoLiveSighting(before, event.value, lastCall)
                 && seen != [] && seen[|seen| - 1].id == event.value
      modifies this`seen, this`idx, this`log
      ensures Valid()
      ensures event.None? ==> seen == old(seen) && log == old(log)
      ensures event.Some? ==> !InTable(seen, event.value) && log == Seen(before, event.value, lastCall, o)
    {
      if event.None? {
        return;
      }
      var p := Find(event.value);
      ghost var s := Sighting(event.value, lastCall, Dispatched);
      ghost var s' := s.(outcome := o);
      ForgettingMatches(seen, idx, before, s, s');
      ForgettingAccounts(idx, before, s, s', lastCall);
      assert p == |seen| - 1;
      hide TableMatches, Accounted, NoLiveSighting;
      RelabelledOrder(before, s, s', lastCall);
      assert Without(seen, p) == seen[..p];
      seen, idx, log := Without(seen, p), idx[..|idx| - 1], before + [s'];
    }

    method PendingWebhookTaskCount(done: set<nat>) returns (count: nat)
      requires Valid()
      modifies this`tasks
      ensures Valid() && tasks == old(tasks) - done && count == |tasks|
    {
      FewerTasks(tasks, done);
      tasks := tasks - done;
      count := |tasks|;
    }

    /** Admission of one message event.  `done` are the tasks that have finished by now, `task` is
        the one to be started, and `created` says whether starting it works. */
    method HandleMessageEvent(event: Option<Id>, now: real, done: set<nat>, task: nat, created: bool) returns (o: Outcome)
      requires Valid() && now >= lastCall && task !in tasks
      modifies this
      ensures Valid()
      ensures event.Some? ==>
                && log == Seen(old(log), event.value, now, o)
                && (o.Duplicate? <==> LiveInTable(old(seen), event.value, now))
                && (!o.Duplicate? ==> NoLiveSighting(old(log), event.value, now))
                && (!IsRemembered(o) ==> !InTable(seen, event.value))
      ensures event.None? ==> !o.Duplicate? && log == old(log) && seen == old(seen)
      ensures !o.Duplicate? ==>
                && (o.Refused? <==> |old(tasks) - done| >= MAX_PENDING_EVENTS)
                && (!o.Refused? ==> (o.Dispatched? <==> created))
      ensures tasks == if o.Duplicate? then old(tasks) else if o.Dispatched? then old(tasks) - done + {task} else old(tasks) - done
    {
      hide NoLiveSighting, TableMatches, Accounted, Ordered;
      var duplicate := IsDuplicateWebhookEvent(event, now);
      if duplicate {
        return Duplicate;
      }
      var pending := PendingWebhookTaskCount(done);
      if pending >= MAX_PENDING_EVENTS {
        ForgetWebhookEvent(event, old(log), Refused);
        return Refused;
      }
      if !created {
        ForgetWebhookEvent(event, old(log), Failed);
        return Failed;
      }
      tasks := tasks + {task};
      return Dispatched;
    }
  }

  lemma FewerTasks(tasks: set<nat>, done: set<nat>)
    ensures |tasks - done| <= |tasks|
  {
    assert (tasks - done) + (tasks * done) == tasks;
  }

  lemma RelabelledOrder<Id>(log: seq<Sighting<Id>>, s: Sighting<Id>, s': Sighting<Id>, now: real)
    requires Ordered(log + [s], now) && s.at == s'.at
    ensures Ordered(log + [s'], now)
  {
    assert forall i | 0 <= i <= |log| :: (log + [s'])[i].at == (log + [s])[i].at;
  }

  lemma MovedToEnd<Id(!new)>(seen: seq<Entry<Id>>, idx: seq<nat>, log: seq<Sighting<Id>>, p: nat, s: Sighting<Id>, now: real)
    requires TableMatches(seen, idx, log) && Accounted(idx, log, now) && p < |seen|
    requires seen[p].id == s.id && IsRemembered(s.outcome)
    ensures |idx| == |seen| && Accounted(Without(idx, p) + [|log|], log + [s], now)
  {
    var idx' := Without(idx, p) + [|log|];
    assert idx'[|idx'| - 1] == |log|;
    forall k | k in idx && k < |log| && log[k].id != s.id ensures k in idx' {
      var q :| 0 <= q < |idx| && idx[q] == k;
      assert q != p;
      assert idx'[if q < p then q else q - 1] == k;
    }
    SightingAccounts(idx, idx', log, s, now);
  }
}
