/**
 The two rate limiters: the fixed window kept in PostgreSQL and the token bucket
 kept in memory.  Times are milliseconds of one clock that does not run back.
 */
module RateLimits {
  import opened Wrappers

  const WINDOW := 60_000
  const KEPT := 120_000

  // ---------------------------------------------------------------- fixed window

  datatype Bucket = Bucket(windowStartedAt: int, requestCount: nat, expiresAt: int)

  // The upsert: open a window, renew an old one, or count within the current one.
  function Upsert(b: Option<Bucket>, now: int): Bucket {
    if b.None? || b.value.windowStartedAt <= now - WINDOW then Bucket(now, 1, now + KEPT)
    else Bucket(b.value.windowStartedAt, b.value.requestCount + 1, now + KEPT)
  }

  predicate Allowed(b: Bucket, capacity: nat) { b.requestCount <= capacity }

  // How many of the requests at the given times are allowed within [from, to).
  function Granted(b: Option<Bucket>, times: seq<int>, capacity: nat, from: int, to: int): nat
    decreases |times|
  {
    if times == [] then 0 else
    var c := Upsert(b, times[0]);
    (if Allowed(c, capacity) && from <= times[0] < to then 1 else 0) + Granted(Some(c), times[1..], capacity, from, to)
  }

  ghost predicate Clock(now: int, times: seq<int>) {
    && (forall i :: 0 <= i < |times| ==> now <= times[i])
    && (forall i, j :: 0 <= i < j < |times| ==> times[i] <= times[j])
  }

  // capacity for every window that can still start once length more milliseconds are left
  // since the current one started.
  function Later(capacity: nat, length: int): nat
    decreases if length > WINDOW then length else 0
  {
    if length <= WINDOW then 0 else capacity + Later(capacity, length - WINDOW)
  }

  lemma {:induction false} LaterMonotone(capacity: nat, a: int, b: int)
    requires a <= b
    ensures Later(capacity, a) <= Later(capacity, b)
    decreases if b > WINDOW then b else 0
  {
    if a > WINDOW {
      LaterMonotone(capacity, a - WINDOW, b - WINDOW);
    }
  }

  // What an open window and the later ones can still grant before the end.
  lemma {:induction false} OpenWindowGrants(b: Bucket, times: seq<int>, capacity: nat, from: int, to: int)
    requires b.requestCount >= 1 && Clock(b.windowStartedAt, times) && capacity >= 1
    ensures Granted(Some(b), times, capacity, from, to)
         <= (if b.requestCount < capacity then capacity - b.requestCount else 0)
            + Later(capacity, to - b.windowStartedAt)
    decreases |times|
  {
    if times != [] {
      var c := Upsert(Some(b), times[0]);
      OpenWindowGrants(c, times[1..], capacity, from, to);
      if c.windowStartedAt != b.windowStartedAt {
        LaterMonotone(capacity, to - c.windowStartedAt, to - b.windowStartedAt - WINDOW);
        if times[0] >= to {
          NoneAfter(Some(c), times[1..], capacity, from, to);
        }
      }
    }
  }

  lemma {:induction false} NoneAfter(b: Option<Bucket>, times: seq<int>, capacity: nat, from: int, to: int)
    requires forall i :: 0 <= i < |times| ==> times[i] >= to
    ensures Granted(b, times, capacity, from, to) == 0
    decreases |times|
  {
    if times != [] {
      NoneAfter(Some(Upsert(b, times[0])), times[1..], capacity, from, to);
    }
  }

  function Minutes(k: nat): int { WINDOW * k }

  lemma {:induction false} LaterMinutes(capacity: nat, k: nat, extra: int)
    requires 0 <= extra < WINDOW
    ensures Later(capacity, Minutes(k) + extra) <= k * capacity
    ensures extra == 0 && k > 0 ==> Later(capacity, Minutes(k)) == (k - 1) * capacity
  {
    if k > 0 {
      LaterMinutes(capacity, k - 1, extra);
      if extra == 0 && k > 1 {
        assert (k - 1) * capacity == (k - 2) * capacity + capacity;
      }
      assert k * capacity == (k - 1) * capacity + capacity;
    }
  }

  // In any k consecutive minutes at most (k + 1) times the capacity is granted.
  lemma {:induction false} FixedWindowBound(b: Option<Bucket>, times: seq<int>, capacity: nat, from: int, k: nat,
                                            now: int)
    requires capacity >= 1 && k >= 1 && Clock(now, times)
    requires b.Some? ==> b.value.requestCount >= 1 && b.value.windowStartedAt <= now
    ensures Granted(b, times, capacity, from, from + Minutes(k)) <= (k + 1) * capacity
    decreases |times|
  {
    var to := from + Minutes(k);
    if times == [] {
      assert (k + 1) * capacity >= 0;
    } else if times[0] < from {
      FixedWindowBound(Some(Upsert(b, times[0])), times[1..], capacity, from, k, times[0]);
    } else if times[0] >= to {
      NoneAfter(b, times, capacity, from, to);
      assert (k + 1) * capacity >= 0;
    } else {
      var c := Upsert(b, times[0]);
      OpenWindowGrants(c, times[1..], capacity, from, to);
      if c.windowStartedAt == times[0] && c.requestCount == 1 {
        LaterMonotone(capacity, to - c.windowStartedAt, Minutes(k));
        LaterMinutes(capacity, k, 0);
        assert k * capacity == (k - 1) * capacity + capacity;
        assert (k + 1) * capacity == k * capacity + capacity;
      } else {
        LaterMonotone(capacity, to - c.windowStartedAt, Minutes(k) + WINDOW - 1);
        LaterMinutes(capacity, k, WINDOW - 1);
        assert (k + 1) * capacity == k * capacity + capacity;
      }
    }
  }

  // ---------------------------------------------------------------- cleaning up

  // Rows are kept for two minutes after their last request.
  ghost predicate Kept(b: Option<Bucket>) {
    b.Some? ==> b.value.windowStartedAt + KEPT <= b.value.expiresAt
  }

  // Before each request the lifecycle job may delete the row, once it has expired.
  function GrantedCleaned(b: Option<Bucket>, times: seq<int>, cleanups: seq<bool>, capacity: nat): seq<bool>
    requires |cleanups| == |times|
    decreases |times|
  {
    if times == [] then [] else
    var kept := if b.Some? && cleanups[0] && b.value.expiresAt < times[0] then None else b;
    var c := Upsert(kept, times[0]);
    [Allowed(c, capacity)] + GrantedCleaned(Some(c), times[1..], cleanups[1..], capacity)
  }

  // Deleting expired rows cannot be observed.
  lemma {:induction false} CleaningIsUnobservable(b: Option<Bucket>, times: seq<int>, cleanups: seq<bool>,
                                                  never: seq<bool>, capacity: nat, now: int)
    requires |cleanups| == |times| == |never| && Kept(b) && Clock(now, times) &&
      (b.Some? ==> b.value.windowStartedAt <= now)
    requires forall i :: 0 <= i < |never| ==> !never[i]
    ensures GrantedCleaned(b, times, cleanups, capacity) == GrantedCleaned(b, times, never, capacity)
    decreases |times|
  {
    if times != [] {
      var kept := if b.Some? && cleanups[0] && b.value.expiresAt < times[0] then None else b;
      assert Upsert(kept, times[0]) == Upsert(b, times[0]);
      CleaningIsUnobservable(Some(Upsert(b, times[0])), times[1..], cleanups[1..], never[1..], capacity, times[0]);
    }
  }

  // ---------------------------------------------------------------- within capacity

  // How many of the times are not before from.
  function Since(times: seq<int>, from: int): (n: nat)
    ensures n <= |times|
  {
    if times == [] then 0 else Since(times[..|times| - 1], from) + if times[|times| - 1] >= from then 1 else 0
  }

  lemma SincePush(times: seq<int>, now: int, from: int)
    ensures Since(times + [now], from) == Since(times, from) + if now >= from then 1 else 0
  {
    assert (times + [now])[..|times|] == times;
  }

  lemma {:induction false} SinceEarlier(times: seq<int>, from: int, earlier: int)
    requires earlier <= from
    ensures Since(times, from) <= Since(times, earlier)
  {
    if times != [] {
      SinceEarlier(times[..|times| - 1], from, earlier);
    }
  }

  /** A request passes if the last minute, this request included, has seen no more than
      capacity, whatever was cleaned up meanwhile. */
  lemma FixedWindowPasses(times: seq<int>, cleanups: seq<bool>, capacity: nat, now: int, i: nat)
    requires |cleanups| == |times| && Clock(now, times) && i < |times|
    requires Since(times[..i + 1], times[i] - 59_999) <= capacity
    ensures i < |GrantedCleaned(None, times, cleanups, capacity)| && GrantedCleaned(None, times, cleanups, capacity)[i]
  {
    assert [] + times[..i + 1] == times[..i + 1];
    WindowPasses([], None, times, cleanups, capacity, now, i);
  }

  lemma WindowCounts(history: seq<int>, b: Option<Bucket>, now: int)
    requires b.Some? ==>
      b.value.windowStartedAt <= now && b.value.requestCount <= Since(history, b.value.windowStartedAt)
    ensures var c := Upsert(b, now);
      && c.windowStartedAt <= now && c.requestCount <= Since(history + [now], c.windowStartedAt)
      && c.requestCount <= Since(history + [now], now - 59_999)
  {
    hide Since;
    var c := Upsert(b, now);
    SincePush(history, now, c.windowStartedAt);
    SinceEarlier(history + [now], c.windowStartedAt, now - 59_999);
    SinceNothing(history, now);
  }

  lemma SinceNothing(history: seq<int>, now: int)
    ensures Since(history + [now], now) >= 1
  {
    SincePush(history, now, now);
  }

  // The count of an open window is at most the requests since it was opened.
  lemma {:induction false} WindowPasses(history: seq<int>, b: Option<Bucket>, times: seq<int>, cleanups: seq<bool>,
                                        capacity: nat, now: int, i: nat)
    requires |cleanups| == |times| && Clock(now, times) && i < |times|
    requires b.Some? ==>
      b.value.windowStartedAt <= now && b.value.requestCount <= Since(history, b.value.windowStartedAt)
    requires Since(history + times[..i + 1], times[i] - 59_999) <= capacity
    ensures i < |GrantedCleaned(b, times, cleanups, capacity)| && GrantedCleaned(b, times, cleanups, capacity)[i]
    decreases |times|
  {
    hide Upsert, Since;
    var kept := if b.Some? && cleanups[0] && b.value.expiresAt < times[0] then None else b;
    var c := Upsert(kept, times[0]);
    var seen := history + [times[0]];
    WindowCounts(history, kept, times[0]);
    if i == 0 {
      assert history + times[..1] == seen;
    } else {
      assert history + times[..i + 1] == seen + times[1..][..i];
      WindowPasses(seen, Some(c), times[1..], cleanups[1..], capacity, times[0], i - 1);
    }
  }

  // ---------------------------------------------------------------- token bucket

  datatype Tokens = Tokens(tokens: real, updatedAt: int)

  function Refill(capacity: nat, interval: int, elapsed: int): real
    requires interval > 0
  {
    (elapsed * capacity) as real / interval as real
  }

  function Available(t: Option<Tokens>, capacity: nat, interval: int, now: int): real
    requires interval > 0
  {
    if t.None? then capacity as real else
    var elapsed := if now > t.value.updatedAt then now - t.value.updatedAt else 0;
    var filled := t.value.tokens + Refill(capacity, interval, elapsed);
    if filled < capacity as real then filled else capacity as real
  }

  function Spent(t: Option<Tokens>, capacity: nat, interval: int, now: int): Tokens
    requires interval > 0
  {
    var available := Available(t, capacity, interval, now);
    Tokens(if available >= 1.0 then available - 1.0 else available, now)
  }

  lemma RefillAdds(capacity: nat, interval: int, a: int, b: int)
    requires interval > 0 && a >= 0 && b >= 0
    ensures Refill(capacity, interval, a + b) == Refill(capacity, interval, a) + Refill(capacity, interval, b)
    ensures Refill(capacity, interval, a) >= 0.0
  {
    assert (a + b) * capacity == a * capacity + b * capacity;
    assert a * capacity >= 0;
  }

  // ---------------------------------------------------------------- the tracked keys

  datatype Entry = Entry(key: string, bucket: Tokens)

  function Lookup(entries: seq<Entry>, key: string): Option<Tokens> {
    if entries == [] then None else if entries[0].key == key then Some(entries[0].bucket) else Lookup(entries[1..], key)
  }

  function Without(entries: seq<Entry>, key: string): seq<Entry> {
    if entries == [] then [] else if entries[0].key == key then Without(entries[1..], key)
    else [entries[0]] + Without(entries[1..], key)
  }

  // Distinct keys, least recently used first.
  ghost predicate ByUse(entries: seq<Entry>, now: int) {
    && (forall i, j :: 0 <= i < j < |entries| ==> entries[i].key != entries[j].key)
    && (forall i, j :: 0 <= i < j < |entries| ==> entries[i].bucket.updatedAt <= entries[j].bucket.updatedAt)
    && (forall i :: 0 <= i < |entries| ==> entries[i].bucket.updatedAt <= now)
  }

  lemma {:induction false} WithoutKeeps(entries: seq<Entry>, key: string, now: int)
    requires ByUse(entries, now)
    ensures ByUse(Without(entries, key), now) && |Without(entries, key)| <= |entries|
    ensures forall e :: e in Without(entries, key) ==> e.key != key && e in entries
  {
    if entries != [] {
      var rest := entries[1..];
      RestByUse(entries, now);
      WithoutKeeps(rest, key, now);
      if entries[0].key != key {
        FirstByUse(entries[0], Without(rest, key), now);
      }
    }
  }

  lemma RestByUse(entries: seq<Entry>, now: int)
    requires entries != [] && ByUse(entries, now)
    ensures ByUse(entries[1..], now) && entries[0].bucket.updatedAt <= now
    ensures forall e :: e in entries[1..] ==>
      e.key != entries[0].key && entries[0].bucket.updatedAt <= e.bucket.updatedAt
  {
  }

  lemma FirstByUse(first: Entry, rest: seq<Entry>, now: int)
    requires ByUse(rest, now) && first.bucket.updatedAt <= now
    requires forall e :: e in rest ==> e.key != first.key && first.bucket.updatedAt <= e.bucket.updatedAt
    ensures ByUse([first] + rest, now)
  {
  }

  lemma UseNow(entries: seq<Entry>, e: Entry, before: int)
    requires ByUse(entries, before) && (entries == [] || before <= e.bucket.updatedAt)
    requires forall f :: f in entries ==> f.key != e.key
    ensures ByUse(entries + [e], e.bucket.updatedAt)
  {
    forall i | 0 <= i < |entries| ensures entries[i].key != e.key {
      assert entries[i] in entries;
    }
  }

  lemma LatestByUse(entries: seq<Entry>, n: nat, now: int)
    requires ByUse(entries, now) && n <= |entries|
    ensures ByUse(entries[|entries| - n..], now)
  {
  }

  // ---------------------------------------------------------------- runs over many keys

  datatype Request = Request(key: string, now: int)

  datatype Limits = Limits(capacity: nat, interval: int, maxTrackedKeys: nat)

  // The entries after a request: its key moves to the end, and if there is one entry too
  // many, the least recently used one goes.
  function Consumed(entries: seq<Entry>, limits: Limits, r: Request): seq<Entry>
    requires limits.interval > 0
  {
    var spent := Spent(Lookup(entries, r.key), limits.capacity, limits.interval, r.now);
    var all := Without(entries, r.key) + [Entry(r.key, spent)];
    if |all| <= limits.maxTrackedKeys then all else all[|all| - limits.maxTrackedKeys..]
  }

  // How many requests of the key pass.
  function Passed(entries: seq<Entry>, limits: Limits, requests: seq<Request>, key: string): nat
    requires limits.interval > 0
    decreases |requests|
  {
    if requests == [] then 0 else
    var r := requests[0];
    (if r.key == key && Available(Lookup(entries, key), limits.capacity, limits.interval, r.now) >= 1.0 then 1 else 0)
    + Passed(Consumed(entries, limits, r), limits, requests[1..], key)
  }

  // How many requests of the key find no bucket and start with a full one.
  function Starts(entries: seq<Entry>, limits: Limits, requests: seq<Request>, key: string): nat
    requires limits.interval > 0
    decreases |requests|
  {
    if requests == [] then 0 else
    (if requests[0].key == key && Lookup(entries, key).None? then 1 else 0)
    + Starts(Consumed(entries, limits, requests[0]), limits, requests[1..], key)
  }

  ghost predicate InTime(now: int, requests: seq<Request>, last: int) {
    && (forall i :: 0 <= i < |requests| ==> now <= requests[i].now <= last)
    && (forall i, j :: 0 <= i < j < |requests| ==> requests[i].now <= requests[j].now)
  }

  lemma {:induction false} LookupHas(entries: seq<Entry>, key: string)
    ensures Lookup(entries, key).Some? <==> exists i :: 0 <= i < |entries| && entries[i].key == key
    ensures Lookup(entries, key).Some? ==> Entry(key, Lookup(entries, key).value) in entries
  {
    if entries != [] {
      LookupHas(entries[1..], key);
      assert forall i :: 0 < i < |entries| ==> entries[i] == entries[1..][i - 1];
    }
  }

  lemma LookupIs(entries: seq<Entry>, e: Entry, now: int)
    requires ByUse(entries, now) && e in entries
    ensures Lookup(entries, e.key) == Some(e.bucket)
  {
    LookupHas(entries, e.key);
  }

  // A key keeps its bucket, gets the new one with its own request, or is no longer tracked.
  lemma LookupConsumed(entries: seq<Entry>, limits: Limits, r: Request, key: string, before: int)
    requires limits.interval > 0 && ByUse(entries, before) && before <= r.now
    ensures ByUse(Consumed(entries, limits, r), r.now)
    ensures var after := Lookup(Consumed(entries, limits, r), key);
      || after.None?
      || after == if r.key == key then Some(Spent(Lookup(entries, key), limits.capacity, limits.interval, r.now))
                  else Lookup(entries, key)
  {
    hide Spent, ByUse;
    var spent := Spent(Lookup(entries, r.key), limits.capacity, limits.interval, r.now);
    assert spent.updatedAt == r.now by { SpentNow(Lookup(entries, r.key), limits, r.now); }
    var entry, rest := Entry(r.key, spent), Without(entries, r.key);
    WithoutKeeps(entries, r.key, before);
    UseNow(rest, entry, before);
    var all, after := rest + [entry], Consumed(entries, limits, r);
    if |all| > limits.maxTrackedKeys {
      LatestByUse(all, limits.maxTrackedKeys, r.now);
    }
    LookupHas(after, key);
    if Lookup(after, key).Some? {
      var e := Entry(key, Lookup(after, key).value);
      assert e in all;
      if e != entry {
        assert e in entries;
        LookupIs(entries, e, before);
      }
    }
  }

  lemma SpentNow(t: Option<Tokens>, limits: Limits, now: int)
    requires limits.interval > 0
    ensures Spent(t, limits.capacity, limits.interval, now).updatedAt == now
  {
  }

  function TokensOf(entries: seq<Entry>, key: string): real {
    if Lookup(entries, key).Some? then Lookup(entries, key).value.tokens else 0.0
  }

  // One request pays with the tokens there are, those refilled since, or a full bucket.
  lemma RequestPays(t: Option<Tokens>, limits: Limits, from: int, now: int)
    requires limits.interval > 0 && from <= now
    requires t.Some? ==> t.value.tokens >= 0.0 && from <= t.value.updatedAt <= now
    ensures var spent := Spent(t, limits.capacity, limits.interval, now);
            var passed := if Available(t, limits.capacity, limits.interval, now) >= 1.0 then 1.0 else 0.0;
      && spent.tokens >= 0.0
      && spent.tokens + passed <= (if t.Some? then t.value.tokens else limits.capacity as real)
                                  + Refill(limits.capacity, limits.interval, now - from)
  {
    RefillAdds(limits.capacity, limits.interval, now - from, 0);
    if t.Some? {
      RefillAdds(limits.capacity, limits.interval, t.value.updatedAt - from, now - t.value.updatedAt);
    }
  }

  lemma {:induction false} RunPays(entries: seq<Entry>, limits: Limits, requests: seq<Request>, key: string,
                                   before: int, from: int, last: int)
    requires limits.interval > 0 && ByUse(entries, before) && from <= before <= last && InTime(before, requests, last)
    requires Lookup(entries, key).Some? ==>
      TokensOf(entries, key) >= 0.0 && from <= Lookup(entries, key).value.updatedAt
    ensures Passed(entries, limits, requests, key) as real
         <= TokensOf(entries, key) + (Starts(entries, limits, requests, key) * limits.capacity) as real
            + Refill(limits.capacity, limits.interval, last - from)
    decreases |requests|
  {
    hide Spent, Available, ByUse, Refill, Consumed, Lookup;
    RefillAdds(limits.capacity, limits.interval, last - from, 0);
    if requests != [] {
      var r, n := requests[0], Starts(entries, limits, requests, key);
      var after := Consumed(entries, limits, r);
      assert r.now <= last && InTime(r.now, requests[1..], last);
      StillInTime(entries, key, before);
      LookupConsumed(entries, limits, r, key, before);
      if r.key == key {
        RequestPays(Lookup(entries, key), limits, from, r.now);
        SpentNow(Lookup(entries, key), limits, r.now);
        RunPays(after, limits, requests[1..], key, r.now, r.now, last);
        RefillAdds(limits.capacity, limits.interval, r.now - from, last - r.now);
        var m := Starts(after, limits, requests[1..], key);
        assert (m + 1) * limits.capacity == m * limits.capacity + limits.capacity;
      } else {
        RunPays(after, limits, requests[1..], key, r.now, from, last);
      }
    }
  }

  lemma StillInTime(entries: seq<Entry>, key: string, now: int)
    requires ByUse(entries, now)
    ensures Lookup(entries, key).Some? ==> Lookup(entries, key).value.updatedAt <= now
  {
    LookupHas(entries, key);
  }

  /** In every run over any keys, a key new at its start passes at most capacity for each time it starts anew,
      plus what is refilled between the first request and the last.  A key that is still
      tracked at each of its later requests starts once. */
  lemma {:induction false} TokenBucketBound(entries: seq<Entry>, limits: Limits, requests: seq<Request>, key: string)
    requires limits.interval > 0 && requests != []
    requires InTime(requests[0].now, requests, requests[|requests| - 1].now)
    requires ByUse(entries, requests[0].now) && Lookup(entries, key).None?
    ensures Passed(entries, limits, requests, key) as real
         <= (Starts(entries, limits, requests, key) * limits.capacity) as real
            + Refill(limits.capacity, limits.interval, requests[|requests| - 1].now - requests[0].now)
  {
    hide Passed, Starts, Refill;
    RunPays(entries, limits, requests, key, requests[0].now, requests[0].now, requests[|requests| - 1].now);
  }

  // ---------------------------------------------------------------- within the rate

  function Run(entries: seq<Entry>, limits: Limits, requests: seq<Request>): seq<Entry>
    requires limits.interval > 0
  {
    if requests == [] then entries else
    Consumed(Run(entries, limits, requests[..|requests| - 1]), limits, requests[|requests| - 1])
  }

  // How many of the requests are of the key.
  function Asking(requests: seq<Request>, key: string): (n: nat)
    ensures n <= |requests|
  {
    if requests == [] then 0 else
    Asking(requests[..|requests| - 1], key) + if requests[|requests| - 1].key == key then 1 else 0
  }

  // The bucket was full at request j, and every request of the key since then took at most one.
  ghost predicate FullAt(b: Tokens, limits: Limits, requests: seq<Request>, key: string, j: nat)
    requires limits.interval > 0
  {
    && j < |requests| && requests[j].key == key && requests[j].now <= b.updatedAt
    && b.tokens >= (limits.capacity - Asking(requests[j..], key)) as real
                   + Refill(limits.capacity, limits.interval, b.updatedAt - requests[j].now)
  }

  lemma {:induction false} RunFullAt(entries: seq<Entry>, limits: Limits, requests: seq<Request>, key: string,
                                     first: int, last: int)
    requires limits.interval > 0 && limits.capacity >= 1
    requires ByUse(entries, first) && first <= last && InTime(first, requests, last) && Lookup(entries, key).None?
    ensures ByUse(Run(entries, limits, requests), last)
    ensures var b := Lookup(Run(entries, limits, requests), key);
            b.Some? ==> b.value.updatedAt <= last && exists j: nat :: FullAt(b.value, limits, requests, key, j)
    decreases |requests|
  {
    hide ByUse, Consumed, Lookup, Spent, FullAt;
    if requests == [] {
      LaterByUse(entries, first, last);
    } else {
      var n := |requests| - 1;
      var earlier, r := requests[..n], requests[n];
      assert requests == earlier + [r] && InTime(first, earlier, r.now);
      var before := Run(entries, limits, earlier);
      RunFullAt(entries, limits, earlier, key, first, r.now);
      var b, c := Lookup(before, key), Lookup(Consumed(before, limits, r), key);
      LookupConsumed(before, limits, r, key, r.now);
      LaterByUse(Consumed(before, limits, r), r.now, last);
      if c.Some? && r.key == key {
        SpentFullAt(b, limits, earlier, r);
        SpentNow(b, limits, r.now);
      } else if c.Some? {
        var j: nat :| FullAt(b.value, limits, earlier, key, j);
        OtherFullAt(b.value, limits, earlier, r, key, j);
      }
    }
  }

  lemma LaterByUse(entries: seq<Entry>, now: int, later: int)
    requires ByUse(entries, now) && now <= later
    ensures ByUse(entries, later)
  {
  }

  lemma OtherFullAt(b: Tokens, limits: Limits, earlier: seq<Request>, r: Request, key: string, j: nat)
    requires limits.interval > 0 && r.key != key && FullAt(b, limits, earlier, key, j)
    ensures FullAt(b, limits, earlier + [r], key, j)
  {
    var all := earlier + [r];
    assert all[j..][..|all[j..]| - 1] == earlier[j..];
  }

  lemma SpentFullAt(t: Option<Tokens>, limits: Limits, earlier: seq<Request>, r: Request)
    requires limits.interval > 0 && limits.capacity >= 1
    requires t.Some? ==> t.value.updatedAt <= r.now && exists j: nat :: FullAt(t.value, limits, earlier, r.key, j)
    ensures exists j: nat ::
      FullAt(Spent(t, limits.capacity, limits.interval, r.now), limits, earlier + [r], r.key, j)
  {
    var available := Available(t, limits.capacity, limits.interval, r.now);
    var spent := Spent(t, limits.capacity, limits.interval, r.now);
    var all := earlier + [r];
    if available == limits.capacity as real {
      assert all[|earlier|..] == [r] && Asking([r], r.key) == 1 + Asking([], r.key);
      RefillAdds(limits.capacity, limits.interval, 0, 0);
      assert FullAt(spent, limits, all, r.key, |earlier|);
    } else {
      var j: nat :| FullAt(t.value, limits, earlier, r.key, j);
      assert all[j..][..|all[j..]| - 1] == earlier[j..];
      RefillAdds(limits.capacity, limits.interval, t.value.updatedAt - earlier[j].now, r.now - t.value.updatedAt);
      assert FullAt(spent, limits, all, r.key, j);
    }
  }

  lemma {:induction false} RunFrom(entries: seq<Entry>, limits: Limits, requests: seq<Request>)
    requires limits.interval > 0 && requests != []
    ensures Run(entries, limits, requests) == Run(Consumed(entries, limits, requests[0]), limits, requests[1..])
    decreases |requests|
  {
    hide Consumed;
    var n := |requests| - 1;
    if n > 0 {
      RunFrom(entries, limits, requests[..n]);
      assert requests[..n][1..] == requests[1..][..n - 1];
    }
  }

  lemma {:induction false} TrackedStarts(entries: seq<Entry>, limits: Limits, requests: seq<Request>, key: string)
    requires limits.interval > 0
    requires forall i :: 0 <= i < |requests| && requests[i].key == key ==>
      Lookup(Run(entries, limits, requests[..i]), key).Some?
    ensures Starts(entries, limits, requests, key) == 0
    decreases |requests|
  {
    hide Consumed, Run, Lookup;
    if requests != [] {
      RunNothing(entries, limits);
      assert requests[..0] == [];
      var rest := requests[1..];
      forall i | 0 <= i < |rest| && rest[i].key == key
        ensures Lookup(Run(Consumed(entries, limits, requests[0]), limits, rest[..i]), key).Some?
      {
        RunFrom(entries, limits, requests[..i + 1]);
        assert requests[..i + 1][1..] == rest[..i] && requests[i + 1] == rest[i];
      }
      TrackedStarts(Consumed(entries, limits, requests[0]), limits, rest, key);
    }
  }

  // Passed counts the requests that find at least one token in what the earlier ones left.
  lemma {:induction false} PassedPush(entries: seq<Entry>, limits: Limits, requests: seq<Request>, r: Request,
                                      key: string)
    requires limits.interval > 0
    ensures Passed(entries, limits, [], key) == 0
    ensures Passed(entries, limits, requests + [r], key) == Passed(entries, limits, requests, key) +
      (if r.key != key then 0
       else if Available(Lookup(Run(entries, limits, requests), key), limits.capacity, limits.interval, r.now) >= 1.0
       then 1 else 0)
    decreases |requests|
  {
    hide Consumed, Available, Lookup;
    if requests == [] {
      assert [] + [r] == [r] && [r][1..] == [];
      RunNothing(entries, limits);
    } else {
      assert (requests + [r])[1..] == requests[1..] + [r];
      PassedPush(Consumed(entries, limits, requests[0]), limits, requests[1..], r, key);
      RunFrom(entries, limits, requests);
    }
  }

  lemma RunNothing(entries: seq<Entry>, limits: Limits)
    requires limits.interval > 0
    ensures Run(entries, limits, []) == entries
  {
  }

  /** A new key that is tracked from its first request on passes at most capacity plus what is
      refilled between the first request and the last. */
  lemma {:induction false} TrackedKeyBound(entries: seq<Entry>, limits: Limits, requests: seq<Request>, key: string)
    requires limits.interval > 0 && requests != [] && requests[0].key == key
    requires InTime(requests[0].now, requests, requests[|requests| - 1].now)
    requires ByUse(entries, requests[0].now) && Lookup(entries, key).None?
    requires forall i :: 0 < i < |requests| && requests[i].key == key ==>
      Lookup(Run(entries, limits, requests[..i]), key).Some?
    ensures Passed(entries, limits, requests, key) as real
         <= limits.capacity as real
            + Refill(limits.capacity, limits.interval, requests[|requests| - 1].now - requests[0].now)
  {
    hide Consumed, Run, Lookup, Refill, Passed, ByUse, InTime;
    TokenBucketBound(entries, limits, requests, key);
    var rest := requests[1..];
    forall i | 0 <= i < |rest| && rest[i].key == key
      ensures Lookup(Run(Consumed(entries, limits, requests[0]), limits, rest[..i]), key).Some?
    {
      RunFrom(entries, limits, requests[..i + 1]);
      assert requests[..i + 1][1..] == rest[..i] && requests[i + 1] == rest[i];
    }
    TrackedStarts(Consumed(entries, limits, requests[0]), limits, rest, key);
  }

  // From request j on, one more now included, the key asks no more than capacity and refill.
  ghost predicate WithinRate(limits: Limits, requests: seq<Request>, key: string, j: nat, now: int)
    requires limits.interval > 0 && j < |requests|
  {
    (Asking(requests[j..], key) + 1) as real
    <= limits.capacity as real + Refill(limits.capacity, limits.interval, now - requests[j].now)
  }

  /** In every run over any keys, a request passes if, from each earlier request of its key
      on, that key has asked no more often, this time included, than capacity and what is
      refilled since then. */
  lemma TokenBucketPasses(entries: seq<Entry>, limits: Limits, requests: seq<Request>, key: string, first: int,
                          now: int)
    requires limits.interval > 0 && limits.capacity >= 1
    requires ByUse(entries, first) && first <= now && InTime(first, requests, now) && Lookup(entries, key).None?
    requires forall j :: 0 <= j < |requests| && requests[j].key == key ==> WithinRate(limits, requests, key, j, now)
    ensures Available(Lookup(Run(entries, limits, requests), key), limits.capacity, limits.interval, now) >= 1.0
  {
    hide Run, Consumed, ByUse, Lookup, FullAt, InTime, WithinRate;
    RunFullAt(entries, limits, requests, key, first, now);
    var t := Lookup(Run(entries, limits, requests), key);
    if t.Some? {
      var j: nat :| FullAt(t.value, limits, requests, key, j);
      FullPasses(t.value, limits, requests, key, j, now);
    }
  }

  lemma FullPasses(t: Tokens, limits: Limits, requests: seq<Request>, key: string, j: nat, now: int)
    requires limits.interval > 0 && limits.capacity >= 1 && t.updatedAt <= now && FullAt(t, limits, requests, key, j)
    ensures j < |requests| && requests[j].key == key
    ensures WithinRate(limits, requests, key, j, now) ==>
      Available(Some(t), limits.capacity, limits.interval, now) >= 1.0
  {
    hide Asking, Refill;
    RefillAdds(limits.capacity, limits.interval, t.updatedAt - requests[j].now, now - t.updatedAt);
  }

  // ---------------------------------------------------------------- the limiter

  lemma StillByUse(entries: seq<Entry>, limits: Limits, r: Request, before: int)
    requires limits.interval > 0 && ByUse(entries, before) && (entries == [] || before <= r.now)
    ensures ByUse(Consumed(entries, limits, r), r.now)
  {
    hide Consumed;
    LookupConsumed(entries, limits, r, r.key, if entries == [] then r.now else before);
  }

  lemma SpentIs(t: Option<Tokens>, capacity: nat, interval: int, now: int)
    requires interval > 0
    ensures var available := Available(t, capacity, interval, now);
            Spent(t, capacity, interval, now) == Tokens(if available >= 1.0 then available - 1.0 else available, now)
  {
  }

  // A JavaScript Map iterates in insertion order; consume deletes and reinserts, so the
  // entries stand in the order of their last use.
  class TokenBucketRateLimiter {
    const capacity: nat
    const intervalMs: int
    const maxTrackedKeys: nat
    var buckets: seq<Entry>
    ghost var lastNow: int

    ghost predicate Valid()
      reads this
    {
      && capacity >= 1 && intervalMs > 0
      && |buckets| <= maxTrackedKeys
      && ByUse(buckets, lastNow)
    }

    constructor (capacity: nat, intervalMs: int, maxTrackedKeys: nat)
      requires capacity >= 1 && intervalMs > 0
      ensures Valid() && buckets == []
    {
      this.capacity, this.intervalMs, this.maxTrackedKeys := capacity, intervalMs, maxTrackedKeys;
      buckets, lastNow := [], 0;
    }

    method Consume(key: string, now: int) returns (allowed: bool)
      requires Valid() && (buckets == [] || lastNow <= now)
      modifies this
      ensures Valid() && lastNow == now
      ensures allowed <==> Available(Lookup(old(buckets), key), capacity, intervalMs, now) >= 1.0
      ensures buckets == Consumed(old(buckets), Limits(capacity, intervalMs, maxTrackedKeys), Request(key, now))
    {
      hide Available, ByUse, Spent, Without, Lookup;
      var existing := Lookup(buckets, key);
      var available := AvailableTokens(existing, now);
      allowed := available >= 1.0;
      SpentIs(existing, capacity, intervalMs, now);
      StillByUse(buckets, Limits(capacity, intervalMs, maxTrackedKeys), Request(key, now), lastNow);
      buckets := Without(buckets, key);
      buckets := buckets + [Entry(key, Tokens(if allowed then available - 1.0 else available, now))];
      lastNow := now;
      Prune(now);
    }

    method AvailableTokens(existing: Option<Tokens>, now: int) returns (available: real)
      requires intervalMs > 0
      ensures available == Available(existing, capacity, intervalMs, now)
    {
      var updatedAt := if existing.Some? then existing.value.updatedAt else now;
      var elapsed := if now - updatedAt > 0 then now - updatedAt else 0;
      var tokens := if existing.Some? then existing.value.tokens else capacity as real;
      available := tokens + (elapsed * capacity) as real / intervalMs as real;
      if capacity as real < available {
        available := capacity as real;
      }
    }

    method Prune(now: int)
      modifies this`buckets
      ensures buckets == if |old(buckets)| <= maxTrackedKeys then old(buckets)
                         else old(buckets)[|old(buckets)| - maxTrackedKeys..]
    {
      if |buckets| <= maxTrackedKeys {
        return;
      }
      var expireBefore := now - intervalMs * 2;
      var index := 0;
      while index < |buckets|
        invariant index == 0 && |buckets| > maxTrackedKeys
        invariant |buckets| <= |old(buckets)| && buckets == old(buckets)[|old(buckets)| - |buckets|..]
        decreases |buckets| - index
      {
        if buckets[index].bucket.updatedAt < expireBefore || |buckets| > maxTrackedKeys {
          buckets := buckets[..index] + buckets[index + 1..];
        } else {
          index := index + 1;
        }
        if |buckets| <= maxTrackedKeys {
          break;
        }
      }
    }
  }
}
