/** The service's message de-duplicator against the log of every id it ever accepted. */
module MessageDedup {
  import opened Wrappers

  datatype Accepted<Id> = Accepted(id: Id, at: real)

  /** An entry of the dictionary, in insertion order. */
  datatype Seen<Id> = Seen(id: Id, expiresAt: real)

  ghost predicate Ordered<Id>(log: seq<Accepted<Id>>, now: real) {
    && (forall i, j | 0 <= i <= j < |log| :: log[i].at <= log[j].at)
    && (forall i | 0 <= i < |log| :: log[i].at <= now)
  }

  /** From `k` on the log is unexpired and has at most `capacity` entries, and no longer suffix is so. */
  ghost predicate LongestLive<Id>(log: seq<Accepted<Id>>, k: nat, ttl: real, capacity: nat, now: real) {
    && k <= |log| && |log| - k <= capacity
    && (forall i | k <= i < |log| :: log[i].at + ttl > now)
    && (k > 0 ==> |log| - k == capacity || log[k - 1].at + ttl <= now)
  }

  /** The dictionary holds the log from `k` on, with expiry times, and its keys are distinct. */
  ghost predicate Mirrors<Id>(seen: seq<Seen<Id>>, log: seq<Accepted<Id>>, k: nat, ttl: real) {
    && k + |seen| == |log|
    && (forall i | 0 <= i < |seen| :: seen[i] == Seen(log[k + i].id, log[k + i].at + ttl))
    && (forall i, j | 0 <= i < j < |seen| :: seen[i].id != seen[j].id)
  }

  /** An accepted id counts against new messages while it is unexpired and among the newest ones. */
  ghost predicate Remembered<Id>(log: seq<Accepted<Id>>, ttl: real, capacity: nat, now: real, id: Id) {
    exists i | 0 <= i < |log| :: |log| - i <= capacity && log[i].id == id && log[i].at + ttl > now
  }

  /** Keep what has not expired: with ordered expiry times, a tail of the dictionary. */
  method Unexpired<Id>(seen: seq<Seen<Id>>, now: real) returns (kept: seq<Seen<Id>>)
    requires forall i, j | 0 <= i <= j < |seen| :: seen[i].expiresAt <= seen[j].expiresAt
    ensures |kept| <= |seen| && kept == seen[|seen| - |kept|..]
    ensures forall i | 0 <= i < |seen| :: seen[i].expiresAt > now <==> |seen| - |kept| <= i
  {
    kept := [];
    ghost var dropped := 0;
    for i := 0 to |seen|
      invariant dropped <= i && kept == seen[dropped..i]
      invariant dropped > 0 ==> seen[dropped - 1].expiresAt <= now
      invariant dropped < i ==> seen[dropped].expiresAt > now
    {
      if seen[i].expiresAt > now {
        kept := kept + [seen[i]];
      } else {
        dropped := i + 1;
      }
    }
  }

  lemma MirrorIsOrdered<Id>(seen: seq<Seen<Id>>, log: seq<Accepted<Id>>, k: nat, ttl: real, now: real)
    requires Ordered(log, now) && Mirrors(seen, log, k, ttl)
    ensures forall i, j | 0 <= i <= j < |seen| :: seen[i].expiresAt <= seen[j].expiresAt
  {
    forall i, j | 0 <= i <= j < |seen| ensures seen[i].expiresAt <= seen[j].expiresAt {
      assert log[k + i].at <= log[k + j].at;
    }
  }

  /** As time passes the live suffix loses exactly its expired entries. */
  lemma DroppingKeepsLongest<Id>(seen: seq<Seen<Id>>, d: nat, log: seq<Accepted<Id>>, k: nat, ttl: real, capacity: nat,
                                 before: real, now: real)
    requires LongestLive(log, k, ttl, capacity, before) && before <= now && Mirrors(seen, log, k, ttl)
    requires d <= |seen| && forall i | 0 <= i < |seen| :: seen[i].expiresAt > now <==> d <= i
    ensures LongestLive(log, k + d, ttl, capacity, now)
  {
    forall i | k <= i < |log| ensures log[i].at + ttl > now <==> k + d <= i {
      assert log[i].at + ttl == seen[i - k].expiresAt;
    }
  }

  lemma DroppingKeepsMirror<Id>(seen: seq<Seen<Id>>, d: nat, log: seq<Accepted<Id>>, k: nat, ttl: real)
    requires Mirrors(seen, log, k, ttl) && d <= |seen|
    ensures k + |seen| == |log| && Mirrors(seen[d..], log, k + d, ttl)
  {
  }

  lemma AcceptingKeepsOrder<Id>(log: seq<Accepted<Id>>, a: Accepted<Id>)
    requires Ordered(log, a.at)
    ensures Ordered(log + [a], a.at)
  {
  }

  lemma AcceptingKeepsLongest<Id>(log: seq<Accepted<Id>>, a: Accepted<Id>, k: nat, ttl: real, capacity: nat)
    requires capacity > 0 && ttl > 0.0 && LongestLive(log, k, ttl, capacity, a.at)
    ensures LongestLive(log + [a], if |log| - k < capacity then k else k + 1, ttl, capacity, a.at)
  {
  }

  lemma AcceptingKeepsMirror<Id>(seen: seq<Seen<Id>>, log: seq<Accepted<Id>>, a: Accepted<Id>, k: nat, ttl: real)
    requires Mirrors(seen, log, k, ttl) && forall i | 0 <= i < |seen| :: seen[i].id != a.id
    ensures Mirrors(seen + [Seen(a.id, a.at + ttl)], log + [a], k, ttl)
  {
  }

  class MessageDeduplicator<Id(==)> {
    const ttl: real
    const capacity: nat
    var seen: seq<Seen<Id>>
    ghost var log: seq<Accepted<Id>>
    ghost var from: nat
    ghost var lastCall: real

    /** The dictionary is exactly the longest live suffix of the log. */
    ghost predicate Valid()
      reads this
    {
      && capacity > 0 && ttl >= 1.0
      && Ordered(log, lastCall)
      && LongestLive(log, from, ttl, capacity, lastCall)
      && Mirrors(seen, log, from, ttl)
    }

    constructor (dedupeTtlSeconds: real, maxDedupeMessages: int, now: real)
      ensures Valid() && log == [] && lastCall == now
      ensures ttl == if dedupeTtlSeconds < 1.0 then 1.0 else dedupeTtlSeconds
      ensures capacity == if maxDedupeMessages < 1 then 1 else maxDedupeMessages
    {
      ttl := if dedupeTtlSeconds < 1.0 then 1.0 else dedupeTtlSeconds;
      capacity := if maxDedupeMessages < 1 then 1 else maxDedupeMessages;
      seen, log, from, lastCall := [], [], 0, now;
    }

    method DropExpired(now: real)
      requires Valid() && now >= lastCall
      modifies this`seen, this`from, this`lastCall
      ensures Valid() && lastCall == now
    {
      hide Mirrors, LongestLive;
      MirrorIsOrdered(seen, log, from, ttl, lastCall);
      var kept := Unexpired(seen, now);
      ghost var dropped := |seen| - |kept|;
      DroppingKeepsLongest(seen, dropped, log, from, ttl, capacity, lastCall, now);
      DroppingKeepsMirror(seen, dropped, log, from, ttl);
      seen, from, lastCall := kept, from + dropped, now;
    }

    /** Pop from the head while the dictionary is full, then record the new id. */
    method Accept(messageId: Id, now: real)
      requires Valid() && now == lastCall
      requires forall i | 0 <= i < |seen| :: seen[i].id != messageId
      modifies this`seen, this`from, this`log
      ensures Valid() && log == old(log) + [Accepted(messageId, now)]
    {
      hide Mirrors, Ordered;
      ghost var a := Accepted(messageId, now);
      AcceptingKeepsOrder(log, a);
      AcceptingKeepsLongest(log, a, from, ttl, capacity);
      DroppingKeepsMirror(seen, 0, log, from, ttl);
      while |seen| >= capacity
        invariant log == old(log) && from + |seen| == |log| && Mirrors(seen, log, from, ttl)
        invariant from == old(from) || (from > old(from) && |seen| >= capacity - 1)
        invariant forall i | 0 <= i < |seen| :: seen[i].id != messageId
      {
        DroppingKeepsMirror(seen, 1, log, from, ttl);
        seen, from := seen[1..], from + 1;
      }
      AcceptingKeepsMirror(seen, log, a, from, ttl);
      seen, log := seen + [Seen(messageId, now + ttl)], log + [a];
    }

    /** None stands for the empty message id, which is never a duplicate. */
    method IsDuplicate(message: Option<Id>, now: real) returns (duplicate: bool)
      requires Valid() && now >= lastCall
      modifies this
      ensures Valid()
      ensures message.None? ==> !duplicate && log == old(log) && seen == old(seen)
      ensures message.Some? ==>
                && (duplicate <==> Remembered(old(log), ttl, capacity, now, message.value))
                && log == if duplicate then old(log) else old(log) + [Accepted(message.value, now)]
    {
      if message.None? {
        return false;
      }
      var messageId := message.value;
      DropExpired(now);
      for i := 0 to |seen|
        invariant forall j | 0 <= j < i :: seen[j].id != messageId
      {
        if seen[i].id == messageId {
          assert log[from + i].id == messageId;
          return true;
        }
      }
      assert forall i | from <= i < |log| :: log[i].id == seen[i - from].id;
      Accept(messageId, now);
      return false;
    }
  }
}
