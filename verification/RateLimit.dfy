/** The sliding-window limiter against the full history of admissions, which it prunes. */
module RateLimit {

  function Ceil(x: real): (n: int)
    ensures (n - 1) as real < x <= n as real
  {
    -((-x).Floor)
  }

  function Max(x: int, y: int): int {
    if x < y then y else x
  }

  ghost predicate Sorted(h: seq<real>) {
    forall i, j | 0 <= i <= j < |h| :: h[i] <= h[j]
  }

  /** How many admissions are later than `cutoff`. */
  ghost function Recent(h: seq<real>, cutoff: real): nat {
    if h == [] then 0 else Recent(h[..|h| - 1], cutoff) + if h[|h| - 1] > cutoff then 1 else 0
  }

  lemma {:induction false} RecentCounts(h: seq<real>, cutoff: real, k: nat)
    requires k <= |h| && forall i | 0 <= i < |h| :: h[i] > cutoff <==> k <= i
    ensures Recent(h, cutoff) == |h| - k
  {
    if h != [] {
      RecentCounts(h[..|h| - 1], cutoff, if k == |h| then k - 1 else k);
    }
  }

  /** What is stored of a history: a suffix, of which only events up to `cutoff` are missing. */
  ghost predicate TailOf(events: seq<real>, h: seq<real>, cutoff: real) {
    && |events| <= |h|
    && (forall i | 0 <= i < |events| :: events[i] == h[|h| - |events| + i])
    && (forall i | 0 <= i < |h| - |events| :: h[i] <= cutoff)
  }

  /** The popleft loop. */
  function Pruned(events: seq<real>, cutoff: real): (kept: seq<real>)
    ensures kept != [] ==> kept[0] > cutoff
  {
    if events != [] && events[0] <= cutoff then Pruned(events[1..], cutoff) else events
  }

  lemma {:induction false} PrunedIsTail(events: seq<real>, h: seq<real>, before: real, cutoff: real)
    requires Sorted(h) && TailOf(events, h, before) && before <= cutoff
    ensures TailOf(Pruned(events, cutoff), h, cutoff)
    ensures |Pruned(events, cutoff)| <= |events|
    ensures forall e | e in Pruned(events, cutoff) :: e in events
    decreases |events|
  {
    if events != [] {
      assert forall i | |h| - |events| <= i < |h| :: events[i - (|h| - |events|)] == h[i];
      if events[0] <= cutoff {
        PrunedIsTail(events[1..], h, cutoff, cutoff);
      }
    }
  }

  /** A pruned tail holds exactly the admissions that count, and they stay below a bound exactly
      until the first of them has aged out. */
  lemma TailDecides(events: seq<real>, h: seq<real>, cutoff: real, later: real)
    requires Sorted(h) && TailOf(events, h, cutoff) && cutoff <= later
    requires events == [] || events[0] > cutoff
    ensures Recent(h, cutoff) == |events|
    ensures Recent(h, later) <= |events|
    ensures Recent(h, later) < |events| <==> events != [] && events[0] <= later
  {
    var k := |h| - |events|;
    var c := FirstLater(h, cutoff);
    var m := FirstLater(h, later);
    RecentCounts(h, cutoff, c);
    RecentCounts(h, later, m);
    if events != [] {
      assert h[k] == events[0];
    }
    assert k > 0 ==> h[k - 1] <= cutoff;
  }

  lemma {:induction false} FirstLater(h: seq<real>, cutoff: real) returns (k: nat)
    requires Sorted(h)
    ensures k <= |h| && forall i | 0 <= i < |h| :: h[i] > cutoff <==> k <= i
  {
    k := |h|;
    while k > 0 && h[k - 1] > cutoff
      invariant k <= |h| && forall i | k <= i < |h| :: h[i] > cutoff
    {
      k := k - 1;
    }
  }

  /** Any `limit + 1` consecutive admissions span at least a window. */
  ghost predicate Spaced(h: seq<real>, limit: nat, window: real) {
    forall i, j | 0 <= i && j == i + limit && j < |h| :: h[j] >= h[i] + window
  }

  ghost predicate UpTo(h: seq<real>, now: real) {
    forall i | 0 <= i < |h| :: h[i] <= now
  }

  lemma SpacedAt(h: seq<real>, limit: nat, window: real, i: nat)
    requires Spaced(h, limit, window) && i + limit < |h|
    ensures h[i + limit] >= h[i] + window
  {
  }

  /** Admissions in the half-open window that ends at `end`. */
  ghost function InWindow(h: seq<real>, window: real, end: real): nat {
    if h == [] then 0
    else InWindow(h[..|h| - 1], window, end) + if end - window < h[|h| - 1] <= end then 1 else 0
  }

  /** Hence no window, wherever it ends, holds more than `limit` admissions. */
  lemma {:induction false} NoWindowOverflows(h: seq<real>, limit: nat, window: real, end: real)
    requires Sorted(h) && Spaced(h, limit, window)
    ensures InWindow(h, window, end) <= limit
  {
    if h != [] {
      if h[|h| - 1] > end {
        NoWindowOverflows(h[..|h| - 1], limit, window, end);
      } else {
        InWindowIsRecent(h, window, end);
        var k := FirstLater(h, end - window);
        RecentCounts(h, end - window, k);
        if |h| - k > limit {
          SpacedAt(h, limit, window, k);
        }
      }
    }
  }

  lemma {:induction false} InWindowIsRecent(h: seq<real>, window: real, end: real)
    requires UpTo(h, end)
    ensures InWindow(h, window, end) == Recent(h, end - window)
  {
    if h != [] {
      InWindowIsRecent(h[..|h| - 1], window, end);
    }
  }

  /** The stored events of one key against its history, as of the call at `last`.  No stored event
      is as old as `horizon`. */
  ghost predicate Tracks(events: seq<real>, h: seq<real>, last: real, limit: nat, window: real, horizon: real) {
    && Sorted(h) && UpTo(h, last) && Spaced(h, limit, window)
    && TailOf(events, h, last - window) && |events| <= limit
    && forall i | 0 <= i < |events| :: events[i] > horizon
  }

  lemma WaitingTracks(events: seq<real>, h: seq<real>, last: real, now: real, limit: nat, window: real, horizon: real)
    requires Tracks(events, h, last, limit, window, horizon) && last <= now
    ensures Tracks(events, h, now, limit, window, horizon)
  {
  }

  lemma PruningTracks(events: seq<real>, h: seq<real>, last: real, now: real, limit: nat, window: real, horizon: real)
    requires Tracks(events, h, last, limit, window, horizon) && last <= now
    ensures Tracks(Pruned(events, now - window), h, now, limit, window, horizon)
    ensures Tracks(Pruned(events, now - window), h, now, limit, window, now - window)
  {
    var kept := Pruned(events, now - window);
    PrunedIsTail(events, h, last - window, now - window);
    if kept != [] {
      forall i | 0 <= i < |kept| ensures kept[i] > now - window {
        assert h[|h| - |kept|] == kept[0] && h[|h| - |kept| + i] == kept[i];
      }
    }
    forall i | 0 <= i < |kept| ensures kept[i] > horizon {
      assert kept[i] in events;
    }
  }

  lemma AdmittingTracks(events: seq<real>, h: seq<real>, now: real, limit: nat, window: real, horizon: real)
    requires Tracks(events, h, now, limit, window, horizon) && |events| < limit && horizon < now
    ensures Tracks(events + [now], h + [now], now, limit, window, horizon)
  {
  }

  /** How the stored events of a key decide attempts, now and later. */
  lemma StoredDecide(events: seq<real>, h: seq<real>, now: real, limit: nat, window: real, horizon: real, later: real)
    requires Tracks(events, h, now, limit, window, horizon)
    requires (events == [] || events[0] > now - window) && now - window <= later
    ensures |events| <= limit && Recent(h, now - window) == |events| && Recent(h, later) <= |events|
    ensures Recent(h, later) < |events| <==> events != [] && events[0] <= later
    ensures events != [] ==> events[0] <= now
  {
    TailDecides(events, h, now - window, later);
  }

  lemma PrunedTwice(events: seq<real>, cutoff: real)
    ensures Pruned(Pruned(events, cutoff), cutoff) == Pruned(events, cutoff) && Pruned([], cutoff) == []
  {
  }

  /** The cutoff of an attempt `wait` seconds after `now`. */
  ghost function CutoffAfter(now: real, wait: nat, window: real): real {
    now + wait as real - window
  }

  datatype Decision = Decision(allowed: bool, retryAfterSeconds: int)

  class SlidingWindowRateLimiter<Key(==, !new)> {
    const limit: nat
    const window: real
    var events: map<Key, seq<real>>
    var nextCleanup: real
    ghost var admitted: map<Key, seq<real>>
    ghost var lastCall: real

    /** Every admission of a key, ever. */
    ghost function History(key: Key): seq<real>
      reads this
    {
      if key in admitted then admitted[key] else []
    }

    ghost function Stored(key: Key): seq<real>
      reads this
    {
      if key in events then events[key] else []
    }

    ghost predicate Valid()
      reads this
    {
      && limit >= 1 && window >= 1.0
      && nextCleanup <= lastCall + window
      && forall key ::
           Tracks(Stored(key), History(key), lastCall, limit, window, nextCleanup - 2.0 * window)
    }

    constructor (limit: int, windowSeconds: real)
      ensures Valid() && admitted == map[] && lastCall == 0.0
      ensures this.limit == (if limit < 1 then 1 else limit) && window == (if windowSeconds < 1.0 then 1.0 else windowSeconds)
    {
      this.limit := if limit < 1 then 1 else limit;
      window := if windowSeconds < 1.0 then 1.0 else windowSeconds;
      events, nextCleanup, admitted, lastCall := map[], 0.0, map[], 0.0;
    }

    /** The decision is the one the full history calls for, and a denial's delay is the least whole
        number of seconds after which a lone retry succeeds. */
    method Acquire(key: Key, now: real) returns (d: Decision)
      requires Valid() && now >= lastCall
      modifies this
      ensures Valid() && lastCall == now
      ensures d.allowed <==> Recent(old(History(key)), now - window) < limit
      ensures History(key) == if d.allowed then old(History(key)) + [now] else old(History(key))
      ensures forall other | other != key :: History(other) == old(History(other))
      ensures d.allowed ==> d.retryAfterSeconds == 0
      ensures !d.allowed ==> 1 <= d.retryAfterSeconds <= Ceil(window)
      ensures !d.allowed ==> forall wait: nat ::
                Recent(History(key), CutoffAfter(now, wait, window)) < limit <==> d.retryAfterSeconds <= wait
      ensures forall k, i | k in events && 0 <= i < |events[k]| :: events[k][i] > now - 2.0 * window
    {
      hide Tracks;
      Refresh(key, now);
      ghost var horizon := nextCleanup - 2.0 * window;
      StoredDecide(events[key], History(key), now, limit, window, horizon, now - window);
      if |events[key]| >= limit {
        var retryAfter := Max(1, Ceil(events[key][0] + window - now));
        forall wait: nat ensures Recent(History(key), CutoffAfter(now, wait, window)) < limit <==> retryAfter <= wait {
          StoredDecide(events[key], History(key), now, limit, window, horizon, CutoffAfter(now, wait, window));
        }
        StoredEventsAreYoung();
        return Decision(false, retryAfter);
      }
      Admit(key, now);
      StoredEventsAreYoung();
      return Decision(true, 0);
    }

    method Admit(key: Key, now: real)
      requires Valid() && now == lastCall && now < nextCleanup && key in events && |events[key]| < limit
      modifies this`events, this`admitted
      ensures Valid() && History(key) == old(History(key)) + [now]
      ensures forall other | other != key :: History(other) == old(History(other))
    {
      hide Tracks;
      AdmittingTracks(events[key], History(key), now, limit, window, nextCleanup - 2.0 * window);
      events := events[key := events[key] + [now]];
      admitted := admitted[key := History(key) + [now]];
      forall k ensures Tracks(Stored(k), History(k), lastCall, limit, window, nextCleanup - 2.0 * window) {
        assert k != key ==> Stored(k) == old(Stored(k)) && History(k) == old(History(k));
      }
    }

    /** At any time of the limiter's life, and for any window of the past. */
    lemma WindowsNeverOverflow(key: Key, end: real)
      requires Valid()
      ensures InWindow(History(key), window, end) <= limit
    {
      assert Tracks(Stored(key), History(key), lastCall, limit, window, nextCleanup - 2.0 * window);
      NoWindowOverflows(History(key), limit, window, end);
    }

    lemma StoredEventsAreYoung()
      requires limit >= 1 && Valid() && lastCall < nextCleanup
      ensures forall k, i | k in events && 0 <= i < |events[k]| :: events[k][i] > lastCall - 2.0 * window
    {
      forall k, i | k in events && 0 <= i < |events[k]| ensures events[k][i] > lastCall - 2.0 * window {
        assert Stored(k)[i] > nextCleanup - 2.0 * window;
      }
    }

    /** The part before the decision: occasional cleanup of all keys, then the key's own pruning. */
    method Refresh(key: Key, now: real)
      requires Valid() && now >= lastCall
      modifies this
      ensures Valid() && lastCall == now && now < nextCleanup && admitted == old(admitted)
      ensures key in events && (events[key] == [] || events[key][0] > now - window)
    {
      hide Tracks, Pruned;
      var cutoff := now - window;
      PrunedTwice(Stored(key), cutoff);
      forall k
        ensures Tracks(Pruned(Stored(k), cutoff), History(k), now, limit, window, cutoff)
        ensures Tracks(Pruned(Stored(k), cutoff), History(k), now, limit, window, nextCleanup - 2.0 * window)
        ensures Tracks(Stored(k), History(k), now, limit, window, nextCleanup - 2.0 * window)
      {
        PruningTracks(Stored(k), History(k), lastCall, now, limit, window, nextCleanup - 2.0 * window);
        WaitingTracks(Stored(k), History(k), lastCall, now, limit, window, nextCleanup - 2.0 * window);
      }
      ghost var cleaned := now >= nextCleanup;
      if now >= nextCleanup {
        Cleanup(cutoff);
        nextCleanup := now + window;
      }
      if key !in events {
        events := events[key := []];
      }
      Prune(key, cutoff);
      lastCall := now;
      forall k ensures Tracks(Stored(k), History(k), now, limit, window, nextCleanup - 2.0 * window) {
        if cleaned || k == key {
          assert Stored(k) == Pruned(old(Stored(k)), cutoff);
        } else {
          assert Stored(k) == old(Stored(k));
        }
      }
    }

    method Prune(key: Key, cutoff: real)
      requires key in events
      modifies this`events
      ensures events == old(events)[key := Pruned(old(events[key]), cutoff)]
    {
      var kept := events[key];
      while kept != [] && kept[0] <= cutoff
        invariant Pruned(kept, cutoff) == Pruned(events[key], cutoff)
      {
        kept := kept[1..];
      }
      events := events[key := kept];
    }

    /** Prune every key and forget the empty ones. */
    method Cleanup(cutoff: real)
      modifies this`events
      ensures forall key :: key in events <==> key in old(events) && Pruned(old(events)[key], cutoff) != []
      ensures forall key | key in events :: events[key] == Pruned(old(events)[key], cutoff)
    {
      var emptyKeys: set<Key> := {};
      var todo := events.Keys;
      while todo != {}
        invariant events.Keys == old(events).Keys && todo <= events.Keys && emptyKeys <= events.Keys
        invariant forall key | key in events ::
          events[key] == if key in todo then old(events)[key] else Pruned(old(events)[key], cutoff)
        invariant forall key | key in events :: key in emptyKeys <==> key !in todo && events[key] == []
      {
        var key :| key in todo;
        Prune(key, cutoff);
        if events[key] == [] {
          emptyKeys := emptyKeys + {key};
        }
        todo := todo - {key};
      }
      events := events - emptyKeys;
    }
  }
}
