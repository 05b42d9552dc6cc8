/**
 * The two fixed-window counters kept in Redis: hourly and daily quotas
 * (services/api/src/lib/quotas.ts) and the request limiter
 * (services/api/src/lib/rate-limit.ts). Times are milliseconds; each
 * increment-and-expire is one step.
 */
module Windows {
  import opened Common
  import opened Arithmetic

  /** A Redis counter: its value, and when it disappears if an expiry was set. */
  datatype Counter = Counter(value: int, expiresAt: Option<int>)

  predicate Live(c: Counter, now: int) {
    c.expiresAt.None? || now < c.expiresAt.value
  }

  datatype Call = Call(now: nat, amount: nat)

  /** The amount a call adds to what was admitted between two instants. */
  function Share(call: Call, accepted: bool, lo: int, hi: int): nat {
    if accepted && lo <= call.now < hi then call.amount else 0
  }

  // ---------------------------------------------------------------------- quotas

  /** A limit on what is consumed per window; the window's keys are named by its index. */
  datatype Quota = Quota(limit: int, windowMs: nat)

  type Store = map<nat, Counter>

  const GRACE_MS := 60_000

  function Held(store: Store, bucket: nat, now: int): Counter {
    if bucket in store && Live(store[bucket], now) then store[bucket] else Counter(0, None)
  }

  /** `INCRBY`, then `EXPIRE` when this was the first write of the key. */
  function Consumed(q: Quota, store: Store, call: Call): (Store, bool)
    requires q.windowMs > 0
  {
    var bucket := call.now / q.windowMs;
    var before := Held(store, bucket, call.now);
    var used := before.value + call.amount;
    var expiry := if used == call.amount then Some(call.now + q.windowMs + GRACE_MS) else before.expiresAt;
    (store[bucket := Counter(used, expiry)], used <= q.limit)
  }

  class QuotaCounter {
    const q: Quota
    var store: Store

    constructor (q: Quota)
      ensures this.q == q && store == map[]
    {
      this.q, store := q, map[];
    }

    method Consume(call: Call) returns (accepted: bool)
      requires q.windowMs > 0
      modifies this
      ensures (store, accepted) == Consumed(q, old(store), call)
    {
      var bucket := call.now / q.windowMs;
      var used := Held(store, bucket, call.now).value + call.amount;
      var expiry := Held(store, bucket, call.now).expiresAt;
      if used == call.amount {
        expiry := Some(call.now + q.windowMs + GRACE_MS);
      }
      store := store[bucket := Counter(used, expiry)];
      accepted := used <= q.limit;
    }
  }

  /** No key disappears inside its own bucket. */
  ghost predicate KeysOutlive(q: Quota, store: Store) {
    forall b <- store :: store[b].value >= 0
      && (store[b].expiresAt.Some? ==> store[b].expiresAt.value >= q.windowMs * b + q.windowMs)
  }

  lemma InBucket(q: Quota, now: nat, b: nat)
    requires q.windowMs > 0
    ensures now / q.windowMs == b <==> q.windowMs * b <= now < q.windowMs * b + q.windowMs
  {
    DivMod(now, q.windowMs);
    if q.windowMs * b <= now < q.windowMs * b + q.windowMs {
      DivModIs(now, q.windowMs, b, now - q.windowMs * b);
    }
  }

  /** Inside its bucket a key is always live, so nothing counted in it is ever forgotten. */
  lemma ConsumeInBucket(q: Quota, store: Store, call: Call)
    requires q.windowMs > 0 && KeysOutlive(q, store)
    ensures var b := call.now / q.windowMs; var (store', accepted) := Consumed(q, store, call);
      && KeysOutlive(q, store')
      && b in store' && store'[b].value == Value(store, b) + call.amount
      && (accepted <==> Value(store, b) + call.amount <= q.limit)
      && forall c :: c != b ==> Value(store', c) == Value(store, c)
  {
    var b := call.now / q.windowMs;
    InBucket(q, call.now, b);
    hide Consumed;
    assert Held(store, b, call.now).value == Value(store, b);
    ConsumedParts(q, store, call);
  }

  /** Every key disappears a minute after one window length from its first write, and never before. */
  ghost predicate KeysExpire(q: Quota, store: Store) {
    forall b <- store ::
      && store[b].expiresAt.Some?
      && 0 <= store[b].expiresAt.value - (q.windowMs * b + q.windowMs + 60_000) < q.windowMs
  }

  lemma ConsumeExpires(q: Quota, store: Store, call: Call)
    requires q.windowMs > 0 && KeysOutlive(q, store) && KeysExpire(q, store)
    ensures KeysExpire(q, Consumed(q, store, call).0)
    ensures Value(store, call.now / q.windowMs) == 0 ==>
      Consumed(q, store, call).0[call.now / q.windowMs].expiresAt == Some(call.now + q.windowMs + 60_000)
  {
    var b := call.now / q.windowMs;
    InBucket(q, call.now, b);
    ConsumedParts(q, store, call);
    hide Consumed;
    assert Held(store, b, call.now).value == Value(store, b);
    assert b !in store ==> Value(store, b) == 0;
  }

  lemma ConsumedParts(q: Quota, store: Store, call: Call)
    requires q.windowMs > 0
    ensures var b := call.now / q.windowMs; var before := Held(store, b, call.now);
      Consumed(q, store, call) == (
        store[b := Counter(before.value + call.amount,
          if before.value == 0 then Some(call.now + q.windowMs + GRACE_MS) else before.expiresAt)],
        before.value + call.amount <= q.limit)
  {
  }

  function Value(store: Store, b: nat): int {
    if b in store then store[b].value else 0
  }

  /** What a run of calls is admitted between two instants. */
  function Admitted(q: Quota, store: Store, calls: seq<Call>, lo: int, hi: int): nat
    requires q.windowMs > 0
    decreases |calls|
  {
    if calls == [] then 0
    else
      var (store', accepted) := Consumed(q, store, calls[0]);
      Share(calls[0], accepted, lo, hi) + Admitted(q, store', calls[1..], lo, hi)
  }

  /** In one bucket, at most what is left of the limit. */
  lemma {:induction false} BucketRemainder(q: Quota, store: Store, calls: seq<Call>, b: nat)
    requires q.windowMs > 0 && KeysOutlive(q, store)
    ensures var left := q.limit - Value(store, b);
      Admitted(q, store, calls, q.windowMs * b, q.windowMs * b + q.windowMs) <= if left < 0 then 0 else left
    decreases |calls|
  {
    if calls == [] {
    } else {
      hide Consumed, KeysOutlive;
      ConsumeInBucket(q, store, calls[0]);
      InBucket(q, calls[0].now, b);
      BucketRemainder(q, Consumed(q, store, calls[0]).0, calls[1..], b);
    }
  }

  lemma {:induction false} AdmittedSplit(q: Quota, store: Store, calls: seq<Call>, lo: int, mid: int, hi: int)
    requires q.windowMs > 0 && lo <= mid <= hi
    ensures Admitted(q, store, calls, lo, hi) == Admitted(q, store, calls, lo, mid) + Admitted(q, store, calls, mid, hi)
    decreases |calls|
  {
    if calls == [] {
    } else {
      hide Consumed;
      AdmittedSplit(q, Consumed(q, store, calls[0]).0, calls[1..], lo, mid, hi);
    }
  }

  /**
   * Any run of calls, in any order of time: at most the limit in each bucket,
   * and at most twice the limit in any interval one window long.
   */
  lemma QuotaBound(q: Quota, calls: seq<Call>, a: nat)
    requires q.windowMs > 0 && q.limit >= 0
    ensures Admitted(q, map[], calls, a, a + q.windowMs) <= 2 * q.limit
    ensures forall b: nat :: Admitted(q, map[], calls, q.windowMs * b, q.windowMs * b + q.windowMs) <= q.limit
  {
    hide Admitted;
    var (w, b) := (q.windowMs, a / q.windowMs);
    DivMod(a, w);
    MulDist(w, b, 1);
    BucketRemainder(q, map[], calls, b);
    BucketRemainder(q, map[], calls, b + 1);
    AdmittedSplit(q, map[], calls, w * b, a, w * b + 2 * w);
    AdmittedSplit(q, map[], calls, a, a + w, w * b + 2 * w);
    AdmittedSplit(q, map[], calls, w * b, w * b + w, w * b + 2 * w);
    forall b: nat ensures Admitted(q, map[], calls, w * b, w * b + w) <= q.limit {
      BucketRemainder(q, map[], calls, b);
    }
  }

  /** Twice the limit is reached, by spending one bucket at its end and the next at its start. */
  lemma QuotaBoundReached(q: Quota)
    requires q.windowMs >= 2 && q.limit >= 0
    ensures var calls := [Call(q.windowMs - 1, q.limit), Call(q.windowMs, q.limit)];
      Admitted(q, map[], calls, q.windowMs - 1, 2 * q.windowMs - 1) == 2 * q.limit
  {
    var (w, first, second) := (q.windowMs, Call(q.windowMs - 1, q.limit), Call(q.windowMs, q.limit));
    InBucket(q, w - 1, 0);
    InBucket(q, w, 1);
    hide Consumed;
    ConsumeInBucket(q, map[], first);
    var store := Consumed(q, map[], first).0;
    ConsumeInBucket(q, store, second);
    assert [first, second][1..] == [second] && [second][1..] == [];
    assert Admitted(q, store, [second], w - 1, 2 * w - 1) == q.limit + 0;
  }

  // ---------------------------------------------------------------- request limits

  /** `points` requests per `windowMs`, counted from the first request of a window. */
  datatype Rule = Rule(points: int, windowMs: nat)

  function Counted(rule: Rule, key: Option<Counter>, now: nat): (Option<Counter>, bool) {
    var count := if key.Some? && Live(key.value, now) then key.value.value + 1 else 1;
    var expiry :=
      if count == 1 then Some(now + rule.windowMs) else if key.Some? then key.value.expiresAt else None;
    (Some(Counter(count, expiry)), count <= rule.points)
  }

  class RateLimiter {
    const rule: Rule
    var key: Option<Counter>

    constructor (rule: Rule)
      ensures this.rule == rule && key == None
    {
      this.rule, key := rule, None;
    }

    method Consume(now: nat) returns (accepted: bool)
      modifies this
      ensures (key, accepted) == Counted(rule, old(key), now)
    {
      var count := 1;
      var expiry: Option<int> := None;
      if key.Some? && Live(key.value, now) {
        count, expiry := key.value.value + 1, key.value.expiresAt;
      }
      if count == 1 {
        expiry := Some(now + rule.windowMs);
      }
      key := Some(Counter(count, expiry));
      accepted := count <= rule.points;
    }
  }

  /** How many of the requests made between two instants are accepted. */
  function Passed(rule: Rule, key: Option<Counter>, times: seq<nat>, lo: int, hi: int): nat
    decreases |times|
  {
    if times == [] then 0
    else
      var (key', accepted) := Counted(rule, key, times[0]);
      (if accepted && lo <= times[0] < hi then 1 else 0) + Passed(rule, key', times[1..], lo, hi)
  }

  ghost predicate Ascending(times: seq<nat>) {
    forall i, j :: 0 <= i < j < |times| ==> times[i] <= times[j]
  }

  lemma TailAscends(times: seq<nat>, from: int)
    requires times != [] && Ascending(times) && times[0] >= from
    ensures Ascending(times[1..]) && forall i :: 0 <= i < |times[1..]| ==> times[1..][i] >= from
  {
  }

  /** The key counts a window that is still open until `end`. */
  ghost predicate OpenUntil(key: Option<Counter>, end: int) {
    key.Some? && key.value.value >= 1 && key.value.expiresAt == Some(end)
  }

  lemma CountedInside(rule: Rule, key: Option<Counter>, now: nat, end: int)
    requires OpenUntil(key, end) && now < end
    ensures var (key', accepted) := Counted(rule, key, now);
      OpenUntil(key', end) && key'.value.value == key.value.value + 1 && (accepted <==> key.value.value + 1 <= rule.points)
  {
  }

  lemma CountedFresh(rule: Rule, key: Option<Counter>, now: nat)
    requires key.Some? ==> !Live(key.value, now)
    ensures var (key', accepted) := Counted(rule, key, now);
      OpenUntil(key', now + rule.windowMs) && key'.value.value == 1 && (accepted <==> 1 <= rule.points)
  {
  }

  lemma {:induction false} NonePassed(rule: Rule, key: Option<Counter>, times: seq<nat>, lo: int, hi: int)
    requires forall i :: 0 <= i < |times| ==> times[i] >= hi
    ensures Passed(rule, key, times, lo, hi) == 0
    decreases |times|
  {
    if times == [] {
    } else {
      hide Counted;
      assert forall i :: 0 <= i < |times[1..]| ==> times[1..][i] == times[i + 1];
      NonePassed(rule, Counted(rule, key, times[0]).0, times[1..], lo, hi);
    }
  }

  /** In an open window, at most the points that are left. */
  lemma {:induction false} WindowRemainder(rule: Rule, key: Option<Counter>, times: seq<nat>, lo: int, hi: int, end: int)
    requires OpenUntil(key, end) && hi <= end && Ascending(times)
    ensures var left := rule.points - key.value.value;
      Passed(rule, key, times, lo, hi) <= if left < 0 then 0 else left
    decreases |times|
  {
    if times == [] {
    } else {
      hide Counted;
      TailAscends(times, times[0]);
      if times[0] < end {
        CountedInside(rule, key, times[0], end);
        WindowRemainder(rule, Counted(rule, key, times[0]).0, times[1..], lo, hi, end);
      } else {
        NonePassed(rule, key, times, lo, hi);
      }
    }
  }

  /** Once the window is over, the next window length admits at most the points. */
  lemma {:induction false} NextWindow(rule: Rule, key: Option<Counter>, times: seq<nat>, from: int)
    requires key.Some? ==> key.value.expiresAt.Some? && key.value.expiresAt.value <= from
    requires Ascending(times) && forall i :: 0 <= i < |times| ==> times[i] >= from
    requires rule.points >= 0
    ensures Passed(rule, key, times, from, from + rule.windowMs) <= rule.points
  {
    if times == [] {
    } else {
      hide Counted;
      CountedFresh(rule, key, times[0]);
      TailAscends(times, times[0]);
      var key' := Counted(rule, key, times[0]).0;
      WindowRemainder(rule, key', times[1..], from, from + rule.windowMs, times[0] + rule.windowMs);
    }
  }

  /** After an open window ends, likewise. */
  lemma {:induction false} AfterWindow(rule: Rule, key: Option<Counter>, times: seq<nat>, end: int)
    requires OpenUntil(key, end) && Ascending(times) && rule.points >= 0
    ensures Passed(rule, key, times, end, end + rule.windowMs) <= rule.points
    decreases |times|
  {
    if times == [] {
    } else {
      hide Counted;
      TailAscends(times, times[0]);
      if times[0] < end {
        CountedInside(rule, key, times[0], end);
        AfterWindow(rule, Counted(rule, key, times[0]).0, times[1..], end);
      } else {
        NextWindow(rule, key, times, end);
      }
    }
  }

  lemma {:induction false} PassedSplit(rule: Rule, key: Option<Counter>, times: seq<nat>, lo: int, mid: int, hi: int)
    requires lo <= mid <= hi
    ensures Passed(rule, key, times, lo, hi) == Passed(rule, key, times, lo, mid) + Passed(rule, key, times, mid, hi)
    decreases |times|
  {
    if times == [] {
    } else {
      hide Counted;
      PassedSplit(rule, Counted(rule, key, times[0]).0, times[1..], lo, mid, hi);
    }
  }

  /** The key was last written at or before `last`. */
  ghost predicate WrittenBy(rule: Rule, key: Option<Counter>, last: int) {
    key.Some? ==> key.value.value >= 1 && key.value.expiresAt.Some? && key.value.expiresAt.value <= last + rule.windowMs
  }

  lemma CountedWritten(rule: Rule, key: Option<Counter>, now: nat, last: int)
    requires WrittenBy(rule, key, last) && last <= now
    ensures WrittenBy(rule, Counted(rule, key, now).0, now)
  {
  }

  /** The points of two adjoining windows, less the request that opened the first. */
  function Doubled(points: int): int {
    if points == 0 then 0 else 2 * points - 1
  }

  lemma {:induction false} RateBoundFrom(rule: Rule, key: Option<Counter>, times: seq<nat>, last: int, a: int)
    requires WrittenBy(rule, key, last) && last <= a && rule.points >= 0
    requires Ascending(times) && forall i :: 0 <= i < |times| ==> times[i] >= last
    ensures Passed(rule, key, times, a, a + rule.windowMs) <= Doubled(rule.points)
    decreases |times|
  {
    if times == [] {
    } else {
      hide Counted;
      TailAscends(times, times[0]);
      if times[0] < a {
        CountedWritten(rule, key, times[0], last);
        RateBoundFrom(rule, Counted(rule, key, times[0]).0, times[1..], times[0], a);
      } else if key.None? || key.value.expiresAt.value <= a {
        NextWindow(rule, key, times, a);
      } else {
        var end := key.value.expiresAt.value;
        WindowRemainder(rule, key, times, a, end, end);
        AfterWindow(rule, key, times, end);
        PassedSplit(rule, key, times, a, end, a + rule.windowMs);
        PassedSplit(rule, key, times, end, a + rule.windowMs, end + rule.windowMs);
      }
    }
  }

  /**
   * Over any run of requests in time order, at most one request less than twice
   * the points passes in any interval one window long, wherever the windows
   * happen to start: the request that opened the window came before it.
   */
  lemma RateBound(rule: Rule, times: seq<nat>, a: nat)
    requires rule.points >= 0 && Ascending(times)
    ensures Passed(rule, None, times, a, a + rule.windowMs) <= Doubled(rule.points) <= 2 * rule.points
  {
    RateBoundFrom(rule, None, times, 0, a);
  }

  /** One request opens a window, the rest of the points follow at its end, and all of the next at its start. */
  function Burst(rule: Rule): seq<nat>
    requires rule.points >= 1 && rule.windowMs >= 2
  {
    [0] + Repeat(rule.windowMs - 1, rule.points - 1) + [rule.windowMs] + Repeat(rule.windowMs, rule.points - 1)
  }

  function Repeat(t: nat, n: nat): (times: seq<nat>)
    ensures |times| == n && forall i :: 0 <= i < n ==> times[i] == t
  {
    seq(n, _ => t)
  }

  lemma {:induction false} PassedRepeat(rule: Rule, count: nat, end: int, t: nat, n: nat, rest: seq<nat>, lo: int, hi: int)
    requires count >= 1 && t < end && count + n <= rule.points && lo <= t < hi
    ensures Passed(rule, Some(Counter(count, Some(end))), Repeat(t, n) + rest, lo, hi)
         == n + Passed(rule, Some(Counter(count + n, Some(end))), rest, lo, hi)
    decreases n
  {
    if n == 0 {
      assert Repeat(t, 0) + rest == rest;
    } else {
      assert (Repeat(t, n) + rest)[1..] == Repeat(t, n - 1) + rest;
      PassedRepeat(rule, count + 1, end, t, n - 1, rest, lo, hi);
    }
  }

  lemma PassedCons(rule: Rule, key: Option<Counter>, t: nat, rest: seq<nat>, lo: int, hi: int)
    ensures var (key', accepted) := Counted(rule, key, t);
      Passed(rule, key, [t] + rest, lo, hi) == (if accepted && lo <= t < hi then 1 else 0) + Passed(rule, key', rest, lo, hi)
  {
    hide Counted;
    assert ([t] + rest)[1..] == rest;
  }

  lemma BurstAscends(rule: Rule)
    requires rule.points >= 1 && rule.windowMs >= 2
    ensures Ascending(Burst(rule))
  {
    hide Repeat;
  }

  /** The bound is reached, for every limit and every window of at least two instants. */
  lemma RateBoundReached(rule: Rule)
    requires rule.points >= 1 && rule.windowMs >= 2
    ensures var w := rule.windowMs;
      Ascending(Burst(rule)) && Passed(rule, None, Burst(rule), w - 1, w - 1 + w) == Doubled(rule.points)
  {
    hide Passed, Repeat, Ascending;
    BurstAscends(rule);
    var (p, w) := (rule.points, rule.windowMs);
    var (first, second) := (Repeat(w - 1, p - 1), Repeat(w, p - 1));
    assert Burst(rule) == [0] + (first + ([w] + second));
    PassedCons(rule, None, 0, first + ([w] + second), w - 1, w - 1 + w);
    PassedRepeat(rule, 1, w, w - 1, p - 1, [w] + second, w - 1, w - 1 + w);
    PassedCons(rule, Some(Counter(p, Some(w))), w, second, w - 1, w - 1 + w);
    assert second + [] == second;
    PassedRepeat(rule, 1, w + w, w, p - 1, [], w - 1, w - 1 + w);
    NonePassed(rule, Some(Counter(p, Some(w + w))), [], w - 1, w - 1 + w);
  }
}
