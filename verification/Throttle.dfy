/**
 The rate limit script over its two Redis keys, as a timed state machine.

 Redis keeps a key through the millisecond it expires in: PTTL is then 0, and only a later read
 finds the key gone. The script runs at one moment, which the server's clock never moves back.
 */
module Throttle {
  import opened Types

  /** The counter key: its value, and when it expires if PEXPIRE was called on it. */
  datatype Counter = Counter(hits: nat, expires: nat)

  datatype Keys = Keys(counter: Option<Counter>, block: Option<nat>)

  datatype Config = Config(window: nat, limit: nat, block: nat)

  datatype Reply = Reply(hits: nat, ttl: nat, blocked: bool, blockTtl: nat)

  const NO_KEYS := Keys(None, None)

  predicate Live(counter: Option<Counter>, now: nat) { counter.Some? && now <= counter.value.expires }

  predicate Blocked(block: Option<nat>, now: nat) { block.Some? && now < block.value }

  // ---- one call of the script, as a function on the keys ----

  function Call(k: Keys, now: nat, c: Config): (Keys, Reply) {
    if Blocked(k.block, now) then
      (k, Reply(c.limit + 1, 0, true, k.block.value - now))
    else
      var counter := if Live(k.counter, now) then k.counter.value.(hits := k.counter.value.hits + 1) else Counter(1, now + c.window);
      if counter.hits > c.limit then (Keys(None, Some(now + c.block)), Reply(counter.hits, 0, true, c.block))
      else (Keys(Some(counter), k.block), Reply(counter.hits, counter.expires - now, false, 0))
  }

  /** The two keys in Redis; `None` expiry is a key that never had one. */
  class Redis {
    var hits: Option<nat>
    var hitsExpire: Option<nat>
    var block: Option<nat>

    constructor ()
      ensures Valid() && Abstract() == NO_KEYS
    {
      hits, hitsExpire, block := None, None, None;
    }

    /** Between calls a counter always has an expiry. */
    ghost predicate Valid()
      reads this
    {
      hits.Some? <==> hitsExpire.Some?
    }

    ghost function Abstract(): Keys
      reads this
      requires Valid()
    {
      Keys(if hits.Some? then Some(Counter(hits.value, hitsExpire.value)) else None, block)
    }

    /** An expired key is gone when it is next touched. */
    method Touch(now: nat)
      modifies this`hits, this`hitsExpire
      ensures if old(hitsExpire).Some? && now > old(hitsExpire).value then hits == None && hitsExpire == None
              else hits == old(hits) && hitsExpire == old(hitsExpire)
    {
      if hitsExpire.Some? && now > hitsExpire.value { hits, hitsExpire := None, None; }
    }

    method Incr(now: nat) returns (n: nat)
      requires Valid()
      modifies this`hits, this`hitsExpire
      ensures var live := old(hits.Some? && now <= hitsExpire.value);
        && n == (if live then old(hits).value + 1 else 1) && hits == Some(n)
        && hitsExpire == (if live then old(hitsExpire) else None)
    {
      Touch(now);
      n := if hits.Some? then hits.value + 1 else 1;
      hits := Some(n);
    }

    /** `increment`'s script. */
    method Script(now: nat, window: nat, limit: nat, blockMs: nat) returns (reply: Reply)
      requires Valid()
      modifies this
      ensures Valid()
      ensures (Abstract(), reply) == Call(old(Abstract()), now, Config(window, limit, blockMs))
    {
      if block.Some? && now < block.value {
        return Reply(limit + 1, 0, true, block.value - now);
      }
      var n := Incr(now);
      if hitsExpire.None? { hitsExpire := Some(now + window); }
      var ttl := hitsExpire.value - now;
      if n > limit {
        block := Some(now + blockMs);
        hits, hitsExpire := None, None;
        return Reply(n, 0, true, blockMs);
      }
      return Reply(n, ttl, false, 0);
    }
  }

  // ---- a trace of requests ----

  ghost predicate Ordered(times: seq<nat>) { forall i, j :: 0 <= i < j < |times| ==> times[i] <= times[j] }

  /** The keys after the first n requests. */
  function After(c: Config, times: seq<nat>, n: nat): Keys
    requires n <= |times|
  {
    if n == 0 then NO_KEYS else Call(After(c, times, n - 1), times[n - 1], c).0
  }

  predicate Passes(c: Config, times: seq<nat>, i: nat)
    requires i < |times|
  {
    !Call(After(c, times, i), times[i], c).1.blocked
  }

  /** How many of the first n requests passed at or after a moment. */
  function Passed(c: Config, times: seq<nat>, n: nat, since: nat): nat
    requires n <= |times|
  {
    if n == 0 then 0 else Passed(c, times, n - 1, since) + if times[n - 1] >= since && Passes(c, times, n - 1) then 1 else 0
  }

  /** What the keys say of the requests passed since `a`, before the interval [a, a + window) ends. */
  ghost predicate Accounts(k: Keys, passed: nat, a: nat, c: Config) {
    match k.counter
    case None => passed <= c.limit - 1 || (passed <= 2 * c.limit - 1 && k.block.Some? && k.block.value >= a + c.window)
    case Some(n) =>
      && 1 <= n.hits <= c.limit
      && if n.expires < a + c.window then passed <= n.hits - 1 else passed <= c.limit - 1 + n.hits
  }

  lemma CallAccounts(k: Keys, passed: nat, a: nat, c: Config, now: nat)
    requires c.limit >= 1 && c.block >= c.window && now < a + c.window && Accounts(k, passed, a, c)
    requires now < a ==> passed == 0
    ensures var (k', reply) := Call(k, now, c);
      Accounts(k', passed + (if now >= a && !reply.blocked then 1 else 0), a, c)
  {
  }

  lemma {:induction false} TraceAccounts(c: Config, times: seq<nat>, n: nat, a: nat)
    requires c.limit >= 1 && c.block >= c.window && Ordered(times) && n <= |times|
    requires forall i :: 0 <= i < n ==> times[i] < a + c.window
    ensures Accounts(After(c, times, n), Passed(c, times, n, a), a, c)
    ensures (n > 0 ==> times[n - 1] < a) ==> Passed(c, times, n, a) == 0
  {
    if n > 0 {
      TraceAccounts(c, times, n - 1, a);
      assert n > 1 ==> times[n - 2] <= times[n - 1];
      CallAccounts(After(c, times, n - 1), Passed(c, times, n - 1, a), a, c, times[n - 1]);
    }
  }

  /**
   Any stretch of one window's length, wherever it begins, admits at most 2 * limit - 1 requests,
   on a trace of any length, when a block lasts at least a window.
   */
  lemma IntervalBound(c: Config, times: seq<nat>, n: nat, a: nat)
    requires c.limit >= 1 && c.block >= c.window && Ordered(times) && n <= |times|
    requires forall i :: 0 <= i < n ==> times[i] < a + c.window
    ensures Passed(c, times, n, a) <= 2 * c.limit - 1
  {
    TraceAccounts(c, times, n, a);
  }

  // ---- a block ----

  lemma {:induction false} BlockLasts(c: Config, times: seq<nat>, i: nat, j: nat)
    requires Ordered(times) && i < j < |times|
    requires After(c, times, i + 1).block == Some(times[i] + c.block) && times[j] < times[i] + c.block
    ensures After(c, times, j).block == Some(times[i] + c.block)
  {
    if j > i + 1 {
      assert times[j - 1] <= times[j];
      BlockLasts(c, times, i, j - 1);
    }
  }

  /** A request refused by its count blocks every later request until the block is over. */
  lemma NonePassBlocked(c: Config, times: seq<nat>, i: nat, j: nat)
    requires Ordered(times) && i < j < |times|
    requires !Passes(c, times, i) && !Blocked(After(c, times, i).block, times[i])
    requires times[j] < times[i] + c.block
    ensures !Passes(c, times, j)
  {
    assert After(c, times, i + 1) == Keys(None, Some(times[i] + c.block));
    BlockLasts(c, times, i, j);
  }

  // ---- a counter window ----

  /** What the keys say of the window that opened at a moment. */
  ghost predicate InWindow(k: Keys, passed: nat, start: nat, c: Config) {
    if k.counter.Some? && k.counter.value.expires == start + c.window then passed == k.counter.value.hits <= c.limit
    else passed <= c.limit && k.block.Some? && k.block.value >= start + c.window
  }

  /** Requests s .. n - 1 that passed. */
  function PassedFrom(c: Config, times: seq<nat>, s: nat, n: nat): nat
    requires s <= n <= |times|
  {
    if n == s then 0 else PassedFrom(c, times, s, n - 1) + if Passes(c, times, n - 1) then 1 else 0
  }

  /** A counter window admits at most `limit` requests. */
  lemma {:induction false} WindowBound(c: Config, times: seq<nat>, s: nat, n: nat)
    requires Ordered(times) && s < n <= |times| && c.block >= c.window
    // Request s opens a window: it is not blocked and finds no live counter.
    requires !Blocked(After(c, times, s).block, times[s]) && !Live(After(c, times, s).counter, times[s])
    requires forall i :: s <= i < n ==> times[i] < times[s] + c.window
    ensures InWindow(After(c, times, n), PassedFrom(c, times, s, n), times[s], c)
    ensures PassedFrom(c, times, s, n) <= c.limit
  {
    if n > s + 1 {
      WindowBound(c, times, s, n - 1);
      assert times[s] <= times[n - 1];
    } else {
      assert PassedFrom(c, times, s, s) == 0;
    }
  }

  /** The same to the last millisecond the counter lives. */
  ghost predicate InCounter(k: Keys, passed: nat, start: nat, c: Config) {
    if k.counter.Some? && k.counter.value.expires == start + c.window then passed == k.counter.value.hits <= c.limit
    else passed <= c.limit && k.block.Some? && k.block.value > start + c.window
  }

  /**
   The bound includes the millisecond the counter expires in, where its remaining hits still pass,
   unless a block as short as the window was set in the very millisecond the counter was opened.
   */
  lemma {:induction false} CounterBound(c: Config, times: seq<nat>, s: nat, n: nat)
    requires Ordered(times) && s < n <= |times| && c.block >= c.window
    requires !Blocked(After(c, times, s).block, times[s]) && !Live(After(c, times, s).counter, times[s])
    requires forall i :: s <= i < n ==> times[i] <= times[s] + c.window
    requires c.block > c.window || forall i :: s <= i < n && times[i] == times[s] ==> Passes(c, times, i)
    ensures InCounter(After(c, times, n), PassedFrom(c, times, s, n), times[s], c)
    ensures PassedFrom(c, times, s, n) <= c.limit
  {
    if n > s + 1 {
      CounterBound(c, times, s, n - 1);
      assert times[s] <= times[n - 1];
    } else {
      assert PassedFrom(c, times, s, s) == 0;
    }
  }

  // ---- the bound is exact ----

  /** One request, the rest of the limit as the window closes, a whole limit just after. */
  function Burst(c: Config): seq<nat>
    requires c.limit >= 1
  {
    seq(2 * c.limit, i => if i == 0 then 0 else if i < c.limit then c.window else c.window + 1)
  }

  lemma {:induction false} BurstKeys(c: Config, n: nat)
    requires c.limit >= 1 && 1 <= n <= 2 * c.limit
    ensures After(c, Burst(c), n) ==
            Keys(Some(if n <= c.limit then Counter(n, c.window) else Counter(n - c.limit, 2 * c.window + 1)), None)
    ensures forall i :: 0 <= i < n ==> Passes(c, Burst(c), i)
  {
    if n > 1 { BurstKeys(c, n - 1); }
  }

  lemma {:induction false} AllPassed(c: Config, times: seq<nat>, n: nat, since: nat)
    requires n <= |times| && forall i :: 0 <= i < n ==> Passes(c, times, i)
    requires n > 0 ==> times[0] < since && forall i :: 1 <= i < n ==> times[i] >= since
    ensures Passed(c, times, n, since) == if n == 0 then 0 else n - 1
  {
    if n > 0 { AllPassed(c, times, n - 1, since); }
  }

  /** For every limit and window some trace reaches the bound, so no smaller one holds. */
  lemma BoundIsReached(c: Config)
    requires c.limit >= 1 && c.window >= 2
    ensures Ordered(Burst(c)) && (forall i :: 0 <= i < |Burst(c)| ==> Burst(c)[i] < c.window + c.window)
    ensures Passed(c, Burst(c), |Burst(c)|, c.window) == 2 * c.limit - 1
  {
    BurstKeys(c, 2 * c.limit);
    AllPassed(c, Burst(c), 2 * c.limit, c.window);
  }

  // ---- when the limit itself is the bound ----

  /** The requests of a trace come before a moment. */
  ghost predicate AllBefore(times: seq<nat>, n: nat, end: nat)
    requires n <= |times|
  {
    forall i :: 0 <= i < n ==> times[i] < end
  }

  /** Every trace has at most `limit` passing requests in every stretch of one window's length. */
  ghost predicate NeverAboveLimit(c: Config) {
    forall times: seq<nat>, n: nat, a: nat ::
      n <= |times| && Ordered(times) && AllBefore(times, n, a + c.window) ==> Passed(c, times, n, a) <= c.limit
  }

  lemma {:induction false} ZeroLimit(c: Config, times: seq<nat>, n: nat, a: nat)
    requires c.limit == 0 && n <= |times|
    ensures Passed(c, times, n, a) == 0
  {
    if n > 0 { ZeroLimit(c, times, n - 1, a); }
  }

  /** What the keys say of the requests passed in one millisecond. */
  ghost predicate Instant(k: Keys, passed: nat, a: nat, c: Config) {
    match k.counter
    case None => passed <= c.limit && (passed > 0 ==> k.block.Some? && k.block.value > a)
    case Some(n) => passed <= n.hits <= c.limit && (n.expires < a ==> passed == 0)
  }

  lemma {:induction false} InstantBound(c: Config, times: seq<nat>, n: nat, a: nat)
    requires c.block >= 1 && Ordered(times) && n <= |times| && AllBefore(times, n, a + 1)
    ensures Instant(After(c, times, n), Passed(c, times, n, a), a, c)
    ensures (n > 0 ==> times[n - 1] < a) ==> Passed(c, times, n, a) == 0
  {
    if n > 0 {
      InstantBound(c, times, n - 1, a);
      assert n > 1 ==> times[n - 2] <= times[n - 1];
    }
  }

  /** A window of length zero has no stretch to count in. */
  lemma {:induction false} NothingSince(c: Config, times: seq<nat>, n: nat, a: nat)
    requires n <= |times| && AllBefore(times, n, a)
    ensures Passed(c, times, n, a) == 0
  {
    if n > 0 { NothingSince(c, times, n - 1, a); }
  }

  /**
   With blocks at least a window long, the limit bounds every stretch of one window if and only if
   the limit is at most one or the window at most one millisecond.
   */
  lemma NeverAboveIff(c: Config)
    requires c.block >= c.window
    ensures NeverAboveLimit(c) <==> c.limit <= 1 || c.window <= 1
  {
    if c.limit <= 1 || c.window <= 1 {
      forall times: seq<nat>, n: nat, a: nat | n <= |times| && Ordered(times) && AllBefore(times, n, a + c.window)
        ensures Passed(c, times, n, a) <= c.limit
      {
        if c.limit == 0 { ZeroLimit(c, times, n, a); }
        else if c.limit == 1 { IntervalBound(c, times, n, a); }
        else if c.window == 1 { InstantBound(c, times, n, a); }
        else { NothingSince(c, times, n, a); }
      }
    } else {
      BoundIsReached(c);
      assert AllBefore(Burst(c), |Burst(c)|, c.window + c.window);
    }
  }

  // ---- which requests pass, on times and answers alone ----

  /** An earlier request refused by its count holds this one back: it lies less than a block's length before it. */
  ghost predicate Held(c: Config, times: seq<nat>, j: nat)
    requires j <= |times|
    decreases j, 0
  {
    j < |times| && exists i: nat :: i < j && Over(c, times, i) && times[j] < times[i] + c.block
  }

  /** Refused by its count, and not by a block. */
  ghost predicate Over(c: Config, times: seq<nat>, i: nat)
    requires i < |times|
    decreases i, 1
  {
    !Passes(c, times, i) && !Held(c, times, i)
  }

  /** The counter window that request s opened is the one request j falls in. */
  ghost predicate InForce(c: Config, times: seq<nat>, s: nat, j: nat)
    requires s < j < |times|
    decreases j, 0
  {
    times[j] <= times[s] + c.window && Opens(c, times, s) && forall k: nat :: s < k < j ==> !Over(c, times, k)
  }

  /** A passing request that falls in no window opens its own. */
  ghost predicate Opens(c: Config, times: seq<nat>, s: nat)
    requires s < |times|
    decreases s, 1
  {
    Passes(c, times, s) && forall r: nat :: r < s ==> !InForce(c, times, r, s)
  }

  /** Fewer than `limit` requests have passed in the window the request falls in; none has in a window of its own. */
  ghost predicate HasRoom(c: Config, times: seq<nat>, j: nat)
    requires j < |times|
  {
    c.limit >= 1 && forall s: nat :: s < j && InForce(c, times, s, j) ==> PassedFrom(c, times, s, j) < c.limit
  }

  /** The block key after n requests: the latest end of a block, if a count was ever exceeded. */
  ghost predicate BlockMeans(c: Config, times: seq<nat>, n: nat, block: Option<nat>)
    requires n <= |times|
  {
    match block
    case None => forall i: nat :: i < n ==> !Over(c, times, i)
    case Some(end) =>
      && (exists i: nat :: i < n && Over(c, times, i) && end == times[i] + c.block)
      && forall i: nat :: i < n && Over(c, times, i) ==> times[i] + c.block <= end
  }

  /** Request s opened a window that no exceeded count has closed before request n. */
  ghost predicate OpenSince(c: Config, times: seq<nat>, s: nat, n: nat)
    requires s < n <= |times|
  {
    Opens(c, times, s) && forall k: nat :: s < k < n ==> !Over(c, times, k)
  }

  /** The last window opened before request n, not closed, and what its counter holds. */
  ghost predicate IsCounterOf(c: Config, times: seq<nat>, s: nat, n: nat, k: Counter)
    requires s < n <= |times|
  {
    && OpenSince(c, times, s, n) && k == Counter(PassedFrom(c, times, s, n), times[s] + c.window)
    && forall r: nat :: s < r < n ==> !Opens(c, times, r)
  }

  /** The counter key after n requests: the last window opened and not closed, with the requests passed in it. */
  ghost predicate CounterMeans(c: Config, times: seq<nat>, n: nat, counter: Option<Counter>)
    requires n <= |times|
  {
    match counter
    case None => forall s: nat :: s < n ==> !OpenSince(c, times, s, n)
    case Some(k) =>
      && 1 <= k.hits <= c.limit
      && exists s: nat :: s < n && IsCounterOf(c, times, s, n, k)
  }

  lemma HeldIff(c: Config, times: seq<nat>, j: nat, block: Option<nat>)
    requires Ordered(times) && j < |times| && BlockMeans(c, times, j, block)
    ensures Held(c, times, j) <==> Blocked(block, times[j])
  {
  }

  /** The window in force is the last one opened, while its counter lives. */
  lemma InForceIff(c: Config, times: seq<nat>, j: nat, counter: Option<Counter>)
    requires Ordered(times) && j < |times| && CounterMeans(c, times, j, counter)
    ensures Live(counter, times[j]) <==> exists s: nat :: s < j && InForce(c, times, s, j)
    ensures forall s: nat :: s < j && InForce(c, times, s, j) ==> counter == Some(Counter(PassedFrom(c, times, s, j), times[s] + c.window))
  {
    if counter.Some? {
      var s: nat :| s < j && IsCounterOf(c, times, s, j, counter.value);
      forall r: nat | r < j && InForce(c, times, r, j) ensures r == s { OneInForce(c, times, r, s, j); }
      assert Live(counter, times[j]) ==> InForce(c, times, s, j);
    } else {
      forall s: nat | s < j ensures !InForce(c, times, s, j) { assert !OpenSince(c, times, s, j); }
    }
  }

  /** A window still in force when another opens would have taken its opener in. */
  lemma OneInForce(c: Config, times: seq<nat>, r: nat, s: nat, j: nat)
    requires Ordered(times) && r < j < |times| && s < j && InForce(c, times, r, j) && OpenSince(c, times, s, j)
    requires forall q: nat :: s < q < j ==> !Opens(c, times, q)
    ensures r == s
  {
    if r < s {
      assert times[s] <= times[j];
      assert InForce(c, times, r, s);
    }
  }

  /** What the keys mean after n requests. */
  ghost predicate KeysMean(c: Config, times: seq<nat>, n: nat)
    requires n <= |times|
  {
    BlockMeans(c, times, n, After(c, times, n).block) && CounterMeans(c, times, n, After(c, times, n).counter)
  }

  lemma SinceMore(c: Config, times: seq<nat>, s: nat, j: nat)
    requires s < j < |times|
    ensures OpenSince(c, times, s, j + 1) <==> OpenSince(c, times, s, j) && !Over(c, times, j)
  {
  }

  lemma BlockStays(c: Config, times: seq<nat>, j: nat, block: Option<nat>)
    requires j < |times| && BlockMeans(c, times, j, block) && !Over(c, times, j)
    ensures BlockMeans(c, times, j + 1, block)
  {
    var n := j + 1;
    assert forall i: nat :: i < n && Over(c, times, i) ==> i < j;
  }

  lemma BlockBegins(c: Config, times: seq<nat>, j: nat)
    requires Ordered(times) && j < |times| && Over(c, times, j)
    ensures BlockMeans(c, times, j + 1, Some(times[j] + c.block))
  {
    var n := j + 1;
    assert j < n && times[j] + c.block == times[j] + c.block;
    forall i: nat | i < n ensures times[i] + c.block <= times[j] + c.block { assert i < j ==> times[i] <= times[j]; }
  }

  /** A request held back leaves the counter. */
  lemma CounterStays(c: Config, times: seq<nat>, j: nat, counter: Option<Counter>)
    requires j < |times| && CounterMeans(c, times, j, counter) && !Passes(c, times, j) && !Over(c, times, j)
    ensures CounterMeans(c, times, j + 1, counter)
  {
    assert !Opens(c, times, j);
    if counter.Some? {
      var s: nat :| s < j && IsCounterOf(c, times, s, j, counter.value);
      SinceMore(c, times, s, j);
      assert IsCounterOf(c, times, s, j + 1, counter.value);
    } else {
      var n := j + 1;
      forall s: nat | s < j ensures !OpenSince(c, times, s, n) { SinceMore(c, times, s, j); }
      assert !OpenSince(c, times, j, n);
    }
  }

  lemma CounterEnds(c: Config, times: seq<nat>, j: nat)
    requires j < |times| && Over(c, times, j)
    ensures CounterMeans(c, times, j + 1, None)
  {
    var n := j + 1;
    forall s: nat | s < j ensures !OpenSince(c, times, s, n) { SinceMore(c, times, s, j); }
    assert !OpenSince(c, times, j, n);
  }

  lemma CounterOpens(c: Config, times: seq<nat>, j: nat)
    requires j < |times| && Opens(c, times, j) && c.limit >= 1
    ensures CounterMeans(c, times, j + 1, Some(Counter(1, times[j] + c.window)))
  {
    assert PassedFrom(c, times, j, j) == 0;
    assert PassedFrom(c, times, j, j + 1) == 1;
    assert IsCounterOf(c, times, j, j + 1, Counter(1, times[j] + c.window));
  }

  lemma CounterCounts(c: Config, times: seq<nat>, s: nat, j: nat, k: Counter)
    requires s < j < |times| && IsCounterOf(c, times, s, j, k) && times[j] <= k.expires && Passes(c, times, j) && k.hits < c.limit
    ensures CounterMeans(c, times, j + 1, Some(Counter(k.hits + 1, k.expires)))
  {
    assert InForce(c, times, s, j) && !Opens(c, times, j);
    SinceMore(c, times, s, j);
    assert PassedFrom(c, times, s, j + 1) == PassedFrom(c, times, s, j) + 1;
    assert IsCounterOf(c, times, s, j + 1, Counter(k.hits + 1, k.expires));
  }

  /** One request more. */
  lemma OneMore(c: Config, times: seq<nat>, j: nat)
    requires Ordered(times) && j < |times| && KeysMean(c, times, j)
    ensures KeysMean(c, times, j + 1)
  {
    var k, k' := After(c, times, j), After(c, times, j + 1);
    HeldIff(c, times, j, k.block);
    if Over(c, times, j) {
      assert k' == Keys(None, Some(times[j] + c.block));
      BlockBegins(c, times, j);
      CounterEnds(c, times, j);
    } else {
      assert k'.block == k.block;
      BlockStays(c, times, j, k.block);
      if Passes(c, times, j) { PassStep(c, times, j); } else { assert k' == k; CounterStays(c, times, j, k.counter); }
    }
  }

  /** What a passing request does to the counter, and what it is told. */
  lemma PassingCall(k: Keys, now: nat, c: Config)
    requires !Call(k, now, c).1.blocked
    ensures var counter := if Live(k.counter, now) then Counter(k.counter.value.hits + 1, k.counter.value.expires) else Counter(1, now + c.window);
      counter.hits <= c.limit && Call(k, now, c) == (Keys(Some(counter), k.block), Reply(counter.hits, counter.expires - now, false, 0))
  {
  }

  /** A request that passes is counted in its window, or opens one. */
  lemma PassStep(c: Config, times: seq<nat>, j: nat)
    requires Ordered(times) && j < |times| && CounterMeans(c, times, j, After(c, times, j).counter) && Passes(c, times, j)
    ensures CounterMeans(c, times, j + 1, After(c, times, j + 1).counter)
  {
    var k := After(c, times, j);
    PassingCall(k, times[j], c);
    InForceIff(c, times, j, k.counter);
    if Live(k.counter, times[j]) {
      var s: nat :| s < j && IsCounterOf(c, times, s, j, k.counter.value);
      CounterCounts(c, times, s, j, k.counter.value);
    } else {
      assert Opens(c, times, j);
      CounterOpens(c, times, j);
    }
  }

  lemma {:induction false} AllMean(c: Config, times: seq<nat>, n: nat)
    requires Ordered(times) && n <= |times|
    ensures KeysMean(c, times, n)
  {
    if n > 0 {
      var j := n - 1;
      AllMean(c, times, j);
      OneMore(c, times, j);
    }
  }

  /**
   Exactly which requests pass, on a trace of any length: those with no exceeded count less than a
   block's length before them, in a window, or opening one, in which fewer than `limit` have passed.
   */
  lemma PassesIff(c: Config, times: seq<nat>, j: nat)
    requires Ordered(times) && j < |times|
    ensures Passes(c, times, j) <==> !Held(c, times, j) && HasRoom(c, times, j)
  {
    AllMean(c, times, j);
    var k := After(c, times, j);
    HeldIff(c, times, j, k.block);
    InForceIff(c, times, j, k.counter);
    if Live(k.counter, times[j]) {
      var s: nat :| s < j && InForce(c, times, s, j);
      assert k.counter == Some(Counter(PassedFrom(c, times, s, j), times[s] + c.window));
    }
  }

  /** A block ends: the first request at or after its end passes, and begins a new window. */
  lemma BlockEnds(c: Config, times: seq<nat>, i: nat, j: nat)
    requires Ordered(times) && i < j < |times| && c.limit >= 1 && Over(c, times, i)
    requires times[j] >= times[i] + c.block && forall k: nat :: i < k < j ==> times[k] < times[i] + c.block
    ensures Passes(c, times, j) && Opens(c, times, j)
  {
    forall k: nat | i < k < j ensures Held(c, times, k) && !Passes(c, times, k) {
      assert Over(c, times, i) && times[k] < times[i] + c.block;
      PassesIff(c, times, k);
    }
    forall s: nat | s < j ensures !InForce(c, times, s, j) { assert s < i ==> s < i < j && Over(c, times, i); }
    forall h: nat | h < j && Over(c, times, h) ensures times[j] >= times[h] + c.block {
      assert h <= i;
      assert times[h] <= times[i];
    }
    PassesIff(c, times, j);
  }

  /** What a passing request is told: the requests passed in its window, itself included, and how long the window stays. */
  ghost predicate ToldPassing(c: Config, times: seq<nat>, j: nat, r: Reply)
    requires j < |times|
  {
    && !r.blocked && r.blockTtl == 0
    && (Opens(c, times, j) ==> r.hits == 1 && r.ttl == c.window)
    && forall s: nat :: s < j && InForce(c, times, s, j) ==> r.hits == PassedFrom(c, times, s, j) + 1 && r.ttl == times[s] + c.window - times[j]
  }

  /** What a refused request is told: how long the latest block stays. */
  ghost predicate ToldHeld(c: Config, times: seq<nat>, j: nat, r: Reply)
    requires j < |times|
  {
    && r == Reply(c.limit + 1, 0, true, r.blockTtl)
    && BlockMeans(c, times, j, Some(times[j] + r.blockTtl))
  }

  lemma RepliesTell(c: Config, times: seq<nat>, j: nat)
    requires Ordered(times) && j < |times|
    ensures var r := Call(After(c, times, j), times[j], c).1;
      if Passes(c, times, j) then ToldPassing(c, times, j, r)
      else if Held(c, times, j) then ToldHeld(c, times, j, r)
      else r == Reply(c.limit + 1, 0, true, c.block)
  {
    AllMean(c, times, j);
    var k := After(c, times, j);
    HeldIff(c, times, j, k.block);
    if Passes(c, times, j) {
      PassingTold(c, times, j);
    } else if !Held(c, times, j) {
      OverTold(c, times, j);
    }
  }

  lemma PassingTold(c: Config, times: seq<nat>, j: nat)
    requires Ordered(times) && j < |times| && Passes(c, times, j) && CounterMeans(c, times, j, After(c, times, j).counter)
    ensures ToldPassing(c, times, j, Call(After(c, times, j), times[j], c).1)
  {
    var k := After(c, times, j);
    PassingCall(k, times[j], c);
    InForceIff(c, times, j, k.counter);
    if Live(k.counter, times[j]) {
      var s: nat :| s < j && InForce(c, times, s, j);
      assert !Opens(c, times, j);
    }
  }

  lemma OverTold(c: Config, times: seq<nat>, j: nat)
    requires j < |times| && !Passes(c, times, j) && CounterMeans(c, times, j, After(c, times, j).counter)
    requires !Blocked(After(c, times, j).block, times[j])
    ensures Call(After(c, times, j), times[j], c).1 == Reply(c.limit + 1, 0, true, c.block)
  {
  }
}
