/** The fixed-window rate limiter with its two backends: a SQLite counter that stops at the limit
    and a Redis counter that always increments and expires. */
module RateLimiter {

  const WINDOW := 60.0
  const EXPIRY := 65.0

  /** A request: who asks, and the time in seconds. */
  datatype Call = Call(key: string, now: real)

  function Window(now: real): int {
    (now / WINDOW).Floor
  }

  type Slot = (string, int)

  function SlotOf(c: Call): Slot {
    (c.key, Window(c.now))
  }

  // ---------- SQLite ----------

  type Rows = map<Slot, nat>

  /** Whether the call is admitted, and the rows afterwards. */
  function SqliteAllow(limit: int, rows: Rows, c: Call): (r: (bool, Rows)) {
    var slot := SlotOf(c);
    if slot !in rows then (true, rows[slot := 1])
    else if rows[slot] >= limit then (false, rows)
    else (true, rows[slot := rows[slot] + 1])
  }

  // ---------- Redis ----------

  datatype Counter = Counter(value: nat, expires: real)

  type Counters = map<Slot, Counter>

  /** Redis drops a key once its expiry time has been reached. */
  function Live(counters: Counters, now: real): Counters {
    map s | s in counters && now < counters[s].expires :: counters[s]
  }

  /** INCR, and EXPIRE when the counter is new. */
  function RedisAllow(limit: int, counters: Counters, c: Call): (r: (bool, Counters)) {
    var slot, live := SlotOf(c), Live(counters, c.now);
    var before := if slot in live then live[slot] else Counter(0, c.now + EXPIRY);
    (before.value + 1 <= limit, live[slot := before.(value := before.value + 1)])
  }

  // ---------- Whole sequences of calls ----------

  /** The state after the first `n` calls. */
  function SqliteAfter(limit: int, calls: seq<Call>, n: nat): Rows
    requires n <= |calls|
  {
    if n == 0 then map[] else SqliteAllow(limit, SqliteAfter(limit, calls, n - 1), calls[n - 1]).1
  }

  function RedisAfter(limit: int, calls: seq<Call>, n: nat): Counters
    requires n <= |calls|
  {
    if n == 0 then map[] else RedisAllow(limit, RedisAfter(limit, calls, n - 1), calls[n - 1]).1
  }

  /** The decision on call `i`. */
  predicate SqliteAdmits(limit: int, calls: seq<Call>, i: nat)
    requires i < |calls|
  {
    SqliteAllow(limit, SqliteAfter(limit, calls, i), calls[i]).0
  }

  predicate RedisAdmits(limit: int, calls: seq<Call>, i: nat)
    requires i < |calls|
  {
    RedisAllow(limit, RedisAfter(limit, calls, i), calls[i]).0
  }

  /** How many of the first `n` calls fall into a slot. */
  function CallsIn(calls: seq<Call>, n: nat, slot: Slot): nat
    requires n <= |calls|
  {
    if n == 0 then 0 else CallsIn(calls, n - 1, slot) + (if SlotOf(calls[n - 1]) == slot then 1 else 0)
  }

  ghost predicate Ordered(calls: seq<Call>) {
    forall i, j :: 0 <= i <= j < |calls| ==> calls[i].now <= calls[j].now
  }

  function Min(a: int, b: int): int {
    if a < b then a else b
  }

  /** The limit that the SQLite backend really applies: its first call of a window is always admitted. */
  function AtLeastOne(limit: int): int {
    if limit < 1 then 1 else limit
  }

  /** The SQLite counter is the number of calls, cut off at the limit. */
  lemma {:induction false} SqliteCounts(limit: int, calls: seq<Call>, n: nat, slot: Slot)
    requires n <= |calls|
    ensures var rows := SqliteAfter(limit, calls, n);
            && (slot in rows <==> CallsIn(calls, n, slot) > 0)
            && (slot in rows ==> rows[slot] == Min(CallsIn(calls, n, slot), AtLeastOne(limit)))
  {
    if n > 0 {
      SqliteCounts(limit, calls, n - 1, slot);
    }
  }

  /** A moment in the same window or later is inside the window, or past it. */
  lemma WindowBounds(now: real)
    ensures WINDOW * (Window(now) as real) <= now < WINDOW * (Window(now) as real) + WINDOW
  {
    var q := now / WINDOW;
    assert q.Floor as real <= q < q.Floor as real + 1.0;
  }

  lemma WindowMonotone(a: real, b: real)
    requires a <= b
    ensures Window(a) <= Window(b)
  {
    assert a / WINDOW <= b / WINDOW;
  }

  /** The Redis counter of a window that can still receive calls is the number of calls: the expiry
      never resets a live window. */
  lemma {:induction false} RedisCounts(limit: int, calls: seq<Call>, n: nat, slot: Slot)
    requires n <= |calls| && Ordered(calls[..n])
    ensures var counters := RedisAfter(limit, calls, n);
            (slot in counters ==>
               && counters[slot].value == CallsIn(calls, n, slot)
               && counters[slot].expires >= WINDOW * (slot.1 as real) + EXPIRY)
            && (slot !in counters ==>
                  CallsIn(calls, n, slot) == 0 || (n > 0 && slot.1 < Window(calls[n - 1].now)))
  {
    if n > 0 {
      var c := calls[n - 1];
      assert Ordered(calls[..n - 1]) by {
        assert forall i :: 0 <= i < n - 1 ==> calls[..n - 1][i] == calls[..n][i];
      }
      RedisCounts(limit, calls, n - 1, slot);
      WindowBounds(c.now);
      if n > 1 {
        assert calls[..n][n - 2].now <= calls[..n][n - 1].now;
        WindowMonotone(calls[n - 2].now, c.now);
      }
    }
  }

  // ---------- Main results ----------

  /** The decision both backends are meant to take: fewer than `limit` earlier calls in the window. */
  predicate Admits(limit: int, calls: seq<Call>, i: nat)
    requires i < |calls|
  {
    CallsIn(calls, i, SlotOf(calls[i])) < limit
  }

  /** The SQLite backend admits by count, whatever the clock does. */
  lemma SqliteIsExact(limit: int, calls: seq<Call>, i: nat)
    requires i < |calls|
    ensures SqliteAdmits(limit, calls, i) <==> Admits(AtLeastOne(limit), calls, i)
  {
    SqliteCounts(limit, calls, i, SlotOf(calls[i]));
  }

  /** The Redis backend admits by count, as long as the clock does not run backwards. */
  lemma RedisIsExact(limit: int, calls: seq<Call>, i: nat)
    requires i < |calls| && Ordered(calls)
    ensures RedisAdmits(limit, calls, i) <==> Admits(limit, calls, i)
  {
    var c, slot := calls[i], SlotOf(calls[i]);
    RedisCounts(limit, calls, i, slot);
    WindowBounds(c.now);
    if i > 0 {
      WindowMonotone(calls[i - 1].now, c.now);
    }
  }

  /** The two backends decide every ordered sequence of calls alike exactly when the limit is positive. */
  lemma BackendsAgreeIffPositive(limit: int)
    ensures limit >= 1 <==>
            forall calls: seq<Call>, i: nat :: i < |calls| && Ordered(calls) ==>
              (SqliteAdmits(limit, calls, i) <==> RedisAdmits(limit, calls, i))
  {
    if limit >= 1 {
      forall calls: seq<Call>, i: nat | i < |calls| && Ordered(calls)
        ensures SqliteAdmits(limit, calls, i) <==> RedisAdmits(limit, calls, i)
      {
        SqliteIsExact(limit, calls, i);
        RedisIsExact(limit, calls, i);
      }
    } else {
      var calls := [Call("client", 0.0)];
      SqliteIsExact(limit, calls, 0);
      RedisIsExact(limit, calls, 0);
      assert Ordered(calls) && SqliteAdmits(limit, calls, 0) && !RedisAdmits(limit, calls, 0);
    }
  }

  /** The decision of the backend in use on call `i`. */
  predicate Allowed(redis: bool, limit: int, calls: seq<Call>, i: nat)
    requires i < |calls|
  {
    if redis then RedisAdmits(limit, calls, i) else SqliteAdmits(limit, calls, i)
  }

  /** How many calls of a window each backend admits at most. */
  function Quota(redis: bool, limit: int): (r: nat)
    ensures limit >= 1 ==> r == limit
  {
    if limit >= 1 then limit else if redis then 0 else 1
  }

  lemma AllowedIff(redis: bool, limit: int, calls: seq<Call>, i: nat)
    requires i < |calls| && (redis ==> Ordered(calls))
    ensures Allowed(redis, limit, calls, i) <==> Admits(Quota(redis, limit), calls, i)
  {
    if redis {
      RedisIsExact(limit, calls, i);
    } else {
      SqliteIsExact(limit, calls, i);
    }
  }

  /** Two calls of one key in the same minute, counted from time zero. */
  ghost predicate Together(a: Call, b: Call) {
    a.key == b.key && exists m: int :: InMinute(a.now, m) && InMinute(b.now, m)
  }

  predicate InMinute(now: real, m: int) {
    60.0 * m as real <= now < 60.0 * (m + 1) as real
  }

  lemma InMinuteIff(now: real, m: int)
    ensures InMinute(now, m) <==> Window(now) == m
  {
    WindowBounds(now);
    assert 60.0 * (m + 1) as real == 60.0 * m as real + 60.0;
  }

  lemma TogetherIff(a: Call, b: Call)
    ensures Together(a, b) <==> SlotOf(a) == SlotOf(b)
  {
    InMinuteIff(a.now, Window(a.now));
    InMinuteIff(b.now, Window(a.now));
    if m: int :| InMinute(a.now, m) && InMinute(b.now, m) {
      InMinuteIff(a.now, m);
      InMinuteIff(b.now, m);
    }
  }

  ghost function TogetherWith(calls: seq<Call>, n: nat, c: Call): set<nat> {
    set j: nat | j < n && j < |calls| && Together(calls[j], c)
  }

  lemma {:induction false} CallsInIs(calls: seq<Call>, n: nat, c: Call)
    requires n <= |calls|
    ensures CallsIn(calls, n, SlotOf(c)) == |TogetherWith(calls, n, c)|
  {
    if n > 0 {
      var m := n - 1;
      CallsInIs(calls, m, c);
      TogetherIff(calls[m], c);
      if Together(calls[m], c) {
        assert TogetherWith(calls, n, c) == TogetherWith(calls, m, c) + {m};
      } else {
        assert TogetherWith(calls, n, c) == TogetherWith(calls, m, c);
      }
    }
  }

  /** With either backend a call is admitted exactly when fewer calls of its key than the limit came before it in its
      minute; with a limit below one SQLite still admits the first, and Redis none. */
  lemma AllowedIs(redis: bool, limit: int, calls: seq<Call>, i: nat)
    requires i < |calls| && (redis ==> Ordered(calls))
    ensures limit >= 1 ==> (Allowed(redis, limit, calls, i) <==> |TogetherWith(calls, i, calls[i])| < limit)
    ensures limit < 1 ==> (Allowed(redis, limit, calls, i) <==> !redis && TogetherWith(calls, i, calls[i]) == {})
  {
    AllowedIff(redis, limit, calls, i);
    CallsInIs(calls, i, calls[i]);
  }

  /** How many of the first `n` calls the backend admits in a slot. */
  function AdmittedIn(redis: bool, limit: int, calls: seq<Call>, n: nat, slot: Slot): nat
    requires n <= |calls|
  {
    if n == 0 then 0
    else AdmittedIn(redis, limit, calls, n - 1, slot)
         + (if SlotOf(calls[n - 1]) == slot && Allowed(redis, limit, calls, n - 1) then 1 else 0)
  }

  /** With either backend each key gets exactly the smaller of its calls and the quota in each window. */
  lemma {:induction false} AdmissionsPerWindow(redis: bool, limit: int, calls: seq<Call>, n: nat, slot: Slot)
    requires n <= |calls| && (redis ==> Ordered(calls))
    ensures AdmittedIn(redis, limit, calls, n, slot) == Min(CallsIn(calls, n, slot), Quota(redis, limit))
  {
    if n > 0 {
      AdmissionsPerWindow(redis, limit, calls, n - 1, slot);
      AllowedIff(redis, limit, calls, n - 1);
    }
  }

  /** How many of the first `n` calls of a key the backend admits from `start` to a window's length later. */
  function AdmittedSince(redis: bool, limit: int, calls: seq<Call>, n: nat, key: string, start: real): nat
    requires n <= |calls|
  {
    if n == 0 then 0
    else
      var c := calls[n - 1];
      AdmittedSince(redis, limit, calls, n - 1, key, start)
      + (if c.key == key && start <= c.now <= start + WINDOW && Allowed(redis, limit, calls, n - 1) then 1 else 0)
  }

  lemma SpanTouchesTwoWindows(start: real, now: real)
    requires start <= now <= start + WINDOW
    ensures Window(now) == Window(start) || Window(now) == Window(start) + 1
  {
    var q := start / WINDOW;
    assert q <= now / WINDOW <= q + 1.0;
  }

  lemma {:induction false} SpanIsCovered(redis: bool, limit: int, calls: seq<Call>, n: nat, key: string, start: real)
    requires n <= |calls|
    ensures AdmittedSince(redis, limit, calls, n, key, start)
            <= AdmittedIn(redis, limit, calls, n, (key, Window(start)))
               + AdmittedIn(redis, limit, calls, n, (key, Window(start) + 1))
  {
    if n > 0 {
      SpanIsCovered(redis, limit, calls, n - 1, key, start);
      if start <= calls[n - 1].now <= start + WINDOW {
        SpanTouchesTwoWindows(start, calls[n - 1].now);
      }
    }
  }

  /** No span of 60 seconds, wherever it starts, admits more than twice the quota. */
  lemma AnySpanAtMostTwice(redis: bool, limit: int, calls: seq<Call>, key: string, start: real)
    requires redis ==> Ordered(calls)
    ensures AdmittedSince(redis, limit, calls, |calls|, key, start) <= 2 * Quota(redis, limit)
  {
    SpanIsCovered(redis, limit, calls, |calls|, key, start);
    AdmissionsPerWindow(redis, limit, calls, |calls|, (key, Window(start)));
    AdmissionsPerWindow(redis, limit, calls, |calls|, (key, Window(start) + 1));
  }

  /** As many calls at the end of a window as the limit allows, and as many at the start of the next. */
  function Burst(limit: nat, key: string): (calls: seq<Call>)
    ensures |calls| == 2 * limit
    ensures forall i :: 0 <= i < |calls| ==> calls[i] == Call(key, if i < limit then 59.0 else 60.0)
  {
    seq(2 * limit, i => Call(key, if i < limit then 59.0 else 60.0))
  }

  lemma {:induction false} BurstCounts(limit: nat, key: string, n: nat)
    requires n <= 2 * limit
    ensures CallsIn(Burst(limit, key), n, (key, 0)) == if n < limit then n else limit
    ensures CallsIn(Burst(limit, key), n, (key, 1)) == if n < limit then 0 else n - limit
  {
    assert Window(59.0) == 0 && Window(60.0) == 1;
    if n > 0 {
      BurstCounts(limit, key, n - 1);
    }
  }

  lemma {:induction false} BurstAdmitted(redis: bool, limit: nat, key: string, n: nat)
    requires limit >= 1 && n <= 2 * limit
    ensures AdmittedSince(redis, limit, Burst(limit, key), n, key, 59.0) == n
  {
    if n > 0 {
      var calls, i := Burst(limit, key), n - 1;
      BurstAdmitted(redis, limit, key, i);
      BurstCounts(limit, key, i);
      assert Window(59.0) == 0 && Window(60.0) == 1;
      AllowedIff(redis, limit, calls, i);
    }
  }

  /** And twice the limit is reached, for every limit and with either backend. */
  lemma TwiceIsReached(redis: bool, limit: nat, key: string)
    requires limit >= 1
    ensures Ordered(Burst(limit, key))
    ensures AdmittedSince(redis, limit, Burst(limit, key), 2 * limit, key, 59.0) == 2 * limit
  {
    BurstAdmitted(redis, limit, key, 2 * limit);
  }

  // ---------- The limiter object ----------

  class Limiter {
    const limit: int
    const redis: bool
    var rows: Rows
    var counters: Counters

    constructor (limit: int, redis: bool)
      ensures this.limit == limit && this.redis == redis && rows == map[] && counters == map[]
    {
      this.limit, this.redis, rows, counters := limit, redis, map[], map[];
    }

    /** The fields are what the given calls have made of them. */
    ghost predicate After(calls: seq<Call>)
      reads this
    {
      if redis then counters == RedisAfter(limit, calls, |calls|) else rows == SqliteAfter(limit, calls, |calls|)
    }

    method AllowRedis(key: string, now: real) returns (ok: bool)
      modifies this`counters
      ensures (ok, counters) == RedisAllow(limit, old(counters), Call(key, now))
    {
      var slot := (key, Window(now));
      counters := Live(counters, now);
      if slot in counters {
        counters := counters[slot := counters[slot].(value := counters[slot].value + 1)];
      } else {
        counters := counters[slot := Counter(1, now + EXPIRY)];
      }
      ok := counters[slot].value <= limit;
    }

    method AllowSqlite(key: string, now: real) returns (ok: bool)
      modifies this`rows
      ensures (ok, rows) == SqliteAllow(limit, old(rows), Call(key, now))
    {
      var slot := (key, Window(now));
      if slot !in rows {
        rows := rows[slot := 1];
        return true;
      }
      var current := rows[slot];
      if current >= limit {
        return false;
      }
      rows := rows[slot := current + 1];
      return true;
    }

    /** Decide one more call. */
    method Allow(key: string, now: real, ghost calls: seq<Call>) returns (ok: bool)
      requires After(calls)
      modifies this
      ensures After(calls + [Call(key, now)])
      ensures Ordered(calls + [Call(key, now)]) && limit >= 1 ==> ok == Admits(limit, calls + [Call(key, now)], |calls|)
    {
      ghost var all := calls + [Call(key, now)];
      SamePrefix(limit, calls, all, |calls|);
      if redis {
        ok := AllowRedis(key, now);
        if Ordered(all) {
          RedisIsExact(limit, all, |calls|);
        }
      } else {
        ok := AllowSqlite(key, now);
        SqliteIsExact(limit, all, |calls|);
      }
    }
  }

  lemma {:induction false} SamePrefix(limit: int, calls: seq<Call>, all: seq<Call>, n: nat)
    requires n <= |calls| <= |all| && all[..|calls|] == calls
    ensures SqliteAfter(limit, all, n) == SqliteAfter(limit, calls, n)
    ensures RedisAfter(limit, all, n) == RedisAfter(limit, calls, n)
  {
    if n > 0 {
      SamePrefix(limit, calls, all, n - 1);
      assert all[n - 1] == all[..|calls|][n - 1];
    }
  }
}
