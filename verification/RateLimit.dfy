/**
 Per-key token buckets with idle eviction and a cap on the number of keys. Times are nanoseconds, tokens are reals.
 What a key may still spend depends on its own history alone: evicting its bucket never gives it a token, exactly when
 a bucket left idle long enough to be evicted has had time to fill up.
 */
module RateLimit {
  import opened Common

  /** A limiter that is switched on: every field is positive. */
  datatype Config = Config(rate: real, burst: real, idleTtl: int, maxKeys: int)

  datatype Bucket = Bucket(tokens: real, last: int, lastUsed: int)

  /** The buckets and the time of the last sweep, None before the first. */
  datatype State = State(buckets: map<string, Bucket>, swept: Option<int>)

  const MINUTE: int := 60_000_000_000
  const SECOND: real := 1_000_000_000.0

  ghost predicate On(c: Config) {
    c.rate > 0.0 && c.burst > 0.0 && c.idleTtl > 0 && c.maxKeys > 0
  }

  /** The limiter for a requested setting; None, which allows everything, for a rate or burst that is not positive. */
  function Configured(rate: real, burst: real, idleTtl: int, maxKeys: int): (r: Option<Config>)
    ensures r.Some? <==> rate > 0.0 && burst > 0.0
    ensures r.Some? ==> On(r.value) && r.value.rate == rate && r.value.burst == burst
    ensures r.Some? && idleTtl > 0 ==> r.value.idleTtl == idleTtl
    ensures r.Some? && idleTtl <= 0 ==> r.value.idleTtl == 10 * MINUTE
    ensures r.Some? && maxKeys > 0 ==> r.value.maxKeys == maxKeys
    ensures r.Some? && maxKeys <= 0 ==> r.value.maxKeys == 100_000
  {
    if rate <= 0.0 || burst <= 0.0 then None else
      Some(Config(rate, burst, if idleTtl <= 0 then 10 * MINUTE else idleTtl, if maxKeys <= 0 then 100_000 else maxKeys))
  }

  /** The tokens that accrue in a span of time. */
  function Credit(c: Config, span: int): real {
    span as real / SECOND * c.rate
  }

  function Min(x: real, y: real): real {
    if x > y then y else x
  }

  lemma CreditAdd(c: Config, a: int, b: int)
    ensures Credit(c, a + b) == Credit(c, a) + Credit(c, b) && Credit(c, 0) == 0.0
  {
    var x, y, r := a as real / SECOND, b as real / SECOND, c.rate;
    assert (a + b) as real / SECOND == x + y;
    assert (x + y) * r == x * r + y * r;
  }

  lemma CreditUp(c: Config, a: int, b: int)
    requires On(c) && a <= b
    ensures Credit(c, a) <= Credit(c, b)
  {
    var x, y, r := a as real / SECOND, b as real / SECOND, c.rate;
    assert x <= y;
    assert x * r <= y * r by {
      assert (y - x) * r >= 0.0;
    }
  }

  // ----- operations on values -----

  function Interval(c: Config): int {
    if c.idleTtl / 4 <= 0 then MINUTE else c.idleTtl / 4
  }

  predicate Idle(c: Config, b: Bucket, now: int) {
    now - b.lastUsed > c.idleTtl
  }

  function Evicted(c: Config, m: map<string, Bucket>, now: int): map<string, Bucket> {
    map k | k in m && !Idle(c, m[k], now) :: m[k]
  }

  function Swept(c: Config, s: State, now: int): State {
    if s.swept.Some? && now - s.swept.value < Interval(c) then s else State(Evicted(c, s.buckets, now), Some(now))
  }

  function Refilled(c: Config, b: Bucket, now: int): Bucket {
    if now - b.last > 0 then Bucket(Min(b.tokens + Credit(c, now - b.last), c.burst), now, now) else b.(lastUsed := now)
  }

  /** Serving a key once the sweep is done. */
  function Taken(c: Config, s: State, key: string, now: int): (State, bool) {
    if key !in s.buckets then
      if |s.buckets| >= c.maxKeys then (s, false)
      else (s.(buckets := s.buckets[key := Bucket(c.burst - 1.0, now, now)]), true)
    else
      var b := Refilled(c, s.buckets[key], now);
      var ok := b.tokens >= 1.0;
      (s.(buckets := s.buckets[key := if ok then b.(tokens := b.tokens - 1.0) else b]), ok)
  }

  function Allowed(c: Config, s: State, key: string, now: int): (State, bool) {
    if key == "" then (s, true) else Taken(c, Swept(c, s, now), key, now)
  }

  // ----- the object -----

  class Limiter {
    const c: Config
    var buckets: map<string, Bucket>
    var lastSweep: Option<int>

    ghost function S(): State
      reads this
    {
      State(buckets, lastSweep)
    }

    constructor (config: Config)
      ensures c == config && S() == State(map[], None)
    {
      c, buckets, lastSweep := config, map[], None;
    }

    /** Evicts idle buckets, at most once per sweep interval. */
    method Sweep(now: int)
      modifies this
      ensures S() == Swept(c, old(S()), now)
      ensures var every := if c.idleTtl >= 4 then c.idleTtl / 4 else MINUTE;
        if old(lastSweep).Some? && now - old(lastSweep).value < every then S() == old(S())
        else
          && lastSweep == Some(now)
          && (forall k :: k in buckets <==> k in old(buckets) && now - old(buckets)[k].lastUsed <= c.idleTtl)
          && (forall k :: k in buckets ==> buckets[k] == old(buckets)[k])
    {
      hide PartEvicted, Evicted;
      EvictedExact(c, buckets, now);
      var interval := c.idleTtl / 4;
      if interval <= 0 {
        interval := MINUTE;
      }
      if lastSweep.Some? && now - lastSweep.value < interval {
        return;
      }
      lastSweep := Some(now);
      var left := buckets.Keys;
      PartEvictedEnds(c, buckets, now);
      while left != {}
        invariant left <= old(buckets).Keys && lastSweep == Some(now)
        invariant buckets == PartEvicted(c, old(buckets), left, now)
        decreases left
      {
        var k :| k in left;
        PartEvictedNext(c, old(buckets), left, k, now);
        if now - buckets[k].lastUsed > c.idleTtl {
          buckets := buckets - {k};
        }
        left := left - {k};
      }
    }

    /** Whether the action of a key may proceed, spending one token if so. */
    method Allow(key: string, now: int) returns (ok: bool)
      modifies this
      ensures (S(), ok) == Allowed(c, old(S()), key, now)
      ensures key == "" ==> ok && S() == old(S())
    {
      hide Swept, Credit;
      if key == "" {
        return true;
      }
      Sweep(now);
      if key !in buckets {
        if |buckets| >= c.maxKeys {
          return false;
        }
        buckets := buckets[key := Bucket(c.burst - 1.0, now, now)];
        return true;
      }
      var b := buckets[key];
      if now - b.last > 0 {
        var tokens := b.tokens + Credit(c, now - b.last);
        if tokens > c.burst {
          tokens := c.burst;
        }
        b := b.(tokens := tokens, last := now);
      }
      b := b.(lastUsed := now);
      ok := b.tokens >= 1.0;
      if ok {
        b := b.(tokens := b.tokens - 1.0);
      }
      buckets := buckets[key := b];
    }
  }

  lemma EvictedExact(c: Config, m: map<string, Bucket>, now: int)
    ensures forall k :: k in Evicted(c, m, now) <==> k in m && now - m[k].lastUsed <= c.idleTtl
    ensures forall k :: k in Evicted(c, m, now) ==> Evicted(c, m, now)[k] == m[k]
  {
  }

  /** A sweep under way: the keys in left are still to be visited. */
  ghost function PartEvicted(c: Config, m: map<string, Bucket>, left: set<string>, now: int): map<string, Bucket> {
    map k | k in m && (k in left || !Idle(c, m[k], now)) :: m[k]
  }

  lemma PartEvictedEnds(c: Config, m: map<string, Bucket>, now: int)
    ensures PartEvicted(c, m, m.Keys, now) == m && PartEvicted(c, m, {}, now) == Evicted(c, m, now)
  {
  }

  lemma PartEvictedNext(c: Config, m: map<string, Bucket>, left: set<string>, k: string, now: int)
    requires k in left && left <= m.Keys
    ensures var p := PartEvicted(c, m, left, now);
      && k in p && p[k] == m[k]
      && PartEvicted(c, m, left - {k}, now) == if Idle(c, m[k], now) then p - {k} else p
  {
  }

  // ----- what a key may spend -----

  /** A bucket long enough idle to be evicted is full whatever it held. */
  ghost predicate FullWhenIdle(c: Config) {
    Credit(c, c.idleTtl + 1) >= c.burst
  }

  /** What a key could spend at a time if nothing were ever evicted; a key never seen could spend a whole burst. */
  ghost function Avail(c: Config, s: State, key: string, t: int): real {
    if key in s.buckets then Min(s.buckets[key].tokens + Credit(c, t - s.buckets[key].last), c.burst) else c.burst
  }

  ghost predicate Sound(c: Config, s: State, t: int) {
    forall k :: k in s.buckets ==>
      var b := s.buckets[k];
      0.0 <= b.tokens <= c.burst && b.last == b.lastUsed <= t
  }

  lemma SweptAvail(c: Config, s: State, key: string, now: int)
    requires On(c) && FullWhenIdle(c) && Sound(c, s, now)
    ensures Avail(c, Swept(c, s, now), key, now) == Avail(c, s, key, now) && Sound(c, Swept(c, s, now), now)
  {
    hide Credit;
    if key in s.buckets && Idle(c, s.buckets[key], now) {
      CreditUp(c, c.idleTtl + 1, now - s.buckets[key].last);
    }
  }

  lemma TakenAvail(c: Config, s: State, key: string, other: string, now: int)
    requires On(c) && c.burst >= 1.0 && Sound(c, s, now)
    ensures var (s', ok) := Taken(c, s, key, now);
      && Sound(c, s', now)
      && Avail(c, s', key, now) == Avail(c, s, key, now) - (if ok then 1.0 else 0.0)
      && (other != key ==> Avail(c, s', other, now) == Avail(c, s, other, now))
      && (ok <==> Avail(c, s, key, now) >= 1.0 && (key in s.buckets || |s.buckets| < c.maxKeys))
  {
    hide Credit;
    CreditAdd(c, 0, 0);
    if key in s.buckets {
      CreditUp(c, 0, now - s.buckets[key].last);
    }
  }

  /** One call: it spends exactly what it grants, touches no other key, and refuses only for want of a token or at the cap. */
  lemma AllowedAvail(c: Config, s: State, key: string, other: string, now: int)
    requires On(c) && c.burst >= 1.0 && FullWhenIdle(c) && Sound(c, s, now) && key != ""
    ensures var (s', ok) := Allowed(c, s, key, now);
      && Sound(c, s', now)
      && Avail(c, s', key, now) == Avail(c, s, key, now) - (if ok then 1.0 else 0.0)
      && (other != key ==> Avail(c, s', other, now) == Avail(c, s, other, now))
      && (ok <==> Avail(c, s, key, now) >= 1.0 && !AtCap(c, Swept(c, s, now), key))
  {
    hide Avail, Sound, Taken, Swept, Credit, FullWhenIdle;
    SweptAvail(c, s, key, now);
    SweptAvail(c, s, other, now);
    TakenAvail(c, Swept(c, s, now), key, other, now);
  }

  ghost predicate AtCap(c: Config, s: State, key: string) {
    key !in s.buckets && |s.buckets| >= c.maxKeys
  }

  lemma AvailLater(c: Config, s: State, key: string, t: int, t': int)
    requires On(c) && t <= t'
    ensures Avail(c, s, key, t') <= Avail(c, s, key, t) + Credit(c, t' - t)
    ensures Sound(c, s, t) ==> Sound(c, s, t')
  {
    hide Credit;
    CreditAdd(c, 0, 0);
    CreditUp(c, 0, t' - t);
    if key in s.buckets {
      CreditAdd(c, t - s.buckets[key].last, t' - t);
      assert t - s.buckets[key].last + (t' - t) == t' - s.buckets[key].last;
    }
  }

  // ----- whole runs -----

  datatype Call = Call(key: string, now: int)

  function Run(c: Config, calls: seq<Call>): State {
    if |calls| == 0 then State(map[], None) else
      var call := calls[|calls| - 1];
      Allowed(c, Run(c, calls[..|calls| - 1]), call.key, call.now).0
  }

  predicate Granted(c: Config, calls: seq<Call>, i: nat)
    requires i < |calls|
  {
    Allowed(c, Run(c, calls[..i]), calls[i].key, calls[i].now).1
  }

  /** How many calls of a key are granted from the i-th up to the j-th. */
  function Grants(c: Config, calls: seq<Call>, i: nat, j: nat, key: string): nat
    requires i <= j <= |calls|
    decreases j
  {
    if i == j then 0 else
      Grants(c, calls, i, j - 1, key) + if calls[j - 1].key == key && Granted(c, calls, j - 1) then 1 else 0
  }

  ghost predicate ClockForward(calls: seq<Call>) {
    forall i, j :: 0 <= i < j < |calls| ==> calls[i].now <= calls[j].now
  }

  lemma RunNext(c: Config, calls: seq<Call>, n: nat)
    requires n < |calls|
    ensures Run(c, calls[..n + 1]) == Allowed(c, Run(c, calls[..n]), calls[n].key, calls[n].now).0
  {
    assert calls[..n + 1][..n] == calls[..n];
  }

  lemma {:induction false} RunSound(c: Config, calls: seq<Call>, n: nat, t: int)
    requires On(c) && c.burst >= 1.0 && FullWhenIdle(c) && ClockForward(calls)
    requires n <= |calls| && (n > 0 ==> calls[n - 1].now <= t)
    ensures Sound(c, Run(c, calls[..n]), t)
    decreases n
  {
    hide Allowed, FullWhenIdle;
    if n > 0 {
      var call := calls[n - 1];
      var s := Run(c, calls[..n - 1]);
      RunSound(c, calls, n - 1, call.now);
      RunNext(c, calls, n - 1);
      SpentAvail(c, s, call.key, call.key, call.now);
      AvailLater(c, Run(c, calls[..n]), call.key, call.now, t);
    }
  }

  /** What one call takes from any one key, the nameless key included. */
  lemma SpentAvail(c: Config, s: State, key: string, k: string, now: int)
    requires On(c) && c.burst >= 1.0 && FullWhenIdle(c) && Sound(c, s, now)
    ensures var (s', ok) := Allowed(c, s, key, now);
      && Sound(c, s', now)
      && (k != "" ==> Avail(c, s', k, now) == Avail(c, s, k, now) - (if k == key && ok then 1.0 else 0.0))
  {
    hide Avail, Sound, Taken, FullWhenIdle;
    if key != "" {
      AllowedAvail(c, s, key, k, now);
    }
  }

  lemma AvailBounded(c: Config, s: State, key: string, t: int)
    ensures Avail(c, s, key, t) <= c.burst
  {
  }

  lemma AvailPositive(c: Config, s: State, key: string, t: int)
    requires On(c) && Sound(c, s, t)
    ensures Avail(c, s, key, t) >= 0.0
  {
    hide Credit;
    CreditAdd(c, 0, 0);
    if key in s.buckets {
      CreditUp(c, 0, t - s.buckets[key].last);
    }
  }

  /** Grants so far in the window, plus what is left to spend, stay within a burst and the tokens that accrued. */
  lemma {:induction false} Spending(c: Config, calls: seq<Call>, i: nat, j: nat, key: string)
    requires On(c) && c.burst >= 1.0 && FullWhenIdle(c) && ClockForward(calls) && key != ""
    requires i < j <= |calls|
    ensures Grants(c, calls, i, j, key) as real + Avail(c, Run(c, calls[..j]), key, calls[j - 1].now)
      <= c.burst + Credit(c, calls[j - 1].now - calls[i].now)
    decreases j
  {
    hide Avail, Sound, Allowed, Run, FullWhenIdle, Credit, On;
    var call := calls[j - 1];
    var s := Run(c, calls[..j - 1]);
    RunSound(c, calls, j - 1, call.now);
    RunNext(c, calls, j - 1);
    SpentAvail(c, s, call.key, key, call.now);
    if j == i + 1 {
      CreditAdd(c, 0, 0);
      AvailBounded(c, s, key, call.now);
      assert Grants(c, calls, i, i, key) == 0;
    } else {
      var before := calls[j - 2].now;
      Spending(c, calls, i, j - 1, key);
      AvailLater(c, s, key, before, call.now);
      CreditAdd(c, before - calls[i].now, call.now - before);
      assert before - calls[i].now + (call.now - before) == call.now - calls[i].now;
    }
  }

  /** Any window of any run grants one key at most a burst and what accrues in the window. */
  lemma Window(c: Config, calls: seq<Call>, i: nat, j: nat, key: string)
    requires On(c) && c.burst >= 1.0 && FullWhenIdle(c) && ClockForward(calls) && key != ""
    requires i < j <= |calls|
    ensures Grants(c, calls, i, j, key) as real <= c.burst + Credit(c, calls[j - 1].now - calls[i].now)
    ensures var seconds := (calls[j - 1].now - calls[i].now) as real / 1_000_000_000.0;
      Grants(c, calls, i, j, key) as real <= c.burst + seconds * c.rate
  {
    hide Avail, Sound, Run, FullWhenIdle, Credit, Grants;
    Spending(c, calls, i, j, key);
    RunSound(c, calls, j, calls[j - 1].now);
    InSeconds(c, calls[j - 1].now - calls[i].now);
    AvailPositive(c, Run(c, calls[..j]), key, calls[j - 1].now);
  }

  /** Tokens accrue at the rate per second. */
  lemma InSeconds(c: Config, span: int)
    ensures Credit(c, span) == span as real / 1_000_000_000.0 * c.rate
  {
  }

  // ----- when the bound fails -----

  /** The grants of a key from the i-th up to the j-th call are within a burst and what accrues meanwhile. */
  ghost predicate InBound(c: Config, calls: seq<Call>, i: nat, j: nat, key: string)
    requires i < j <= |calls|
  {
    Grants(c, calls, i, j, key) as real <= c.burst + Credit(c, calls[j - 1].now - calls[i].now)
  }

  ghost predicate Bounded(c: Config) {
    forall calls, i, j, key | 0 <= i < j <= |calls| && ClockForward(calls) && key != "" :: InBound(c, calls, i, j, key)
  }

  lemma WindowHolds(c: Config)
    requires On(c) && c.burst >= 1.0 && FullWhenIdle(c)
    ensures Bounded(c)
  {
    hide Credit, Grants;
    forall calls, i, j, key | 0 <= i < j <= |calls| && ClockForward(calls) && key != ""
      ensures InBound(c, calls, i, j, key)
    {
      Window(c, calls, i, j, key);
    }
  }

  /** The one bucket in use was last used at a time and holds this much. */
  ghost predicate Holds(s: State, t: int, tokens: real) {
    && s.buckets == map["k" := Bucket(tokens, t, t)]
    && s.swept.Some? && s.swept.value <= t
  }

  /** At this time a call finds no bucket, or one that it evicts. */
  ghost predicate Ready(c: Config, s: State, t: int) {
    s == State(map[], None) || exists t', x :: Holds(s, t', x) && t - t' > c.idleTtl
  }

  lemma FirstCall(c: Config, s: State, t: int)
    requires On(c) && c.idleTtl >= 4 && Ready(c, s, t)
    ensures var (s', ok) := Allowed(c, s, "k", t); ok && Holds(s', t, c.burst - 1.0)
  {
    hide Credit;
    assert 0 < Interval(c) <= c.idleTtl;
    assert Evicted(c, s.buckets, t) == map[];
  }

  lemma NextCall(c: Config, s: State, t: int, tokens: real)
    requires On(c) && Holds(s, t, tokens) && tokens >= 1.0
    ensures var (s', ok) := Allowed(c, s, "k", t); ok && Holds(s', t, tokens - 1.0)
  {
    hide Credit;
    assert Evicted(c, s.buckets, t) == s.buckets;
    assert s.buckets["k" := Bucket(tokens - 1.0, t, t)] == map["k" := Bucket(tokens - 1.0, t, t)];
  }

  lemma LateCall(c: Config, s: State, t: int, tokens: real, d: int) returns (left: real)
    requires On(c) && c.burst >= 1.0 && Holds(s, t, tokens) && 0 < d <= c.idleTtl && tokens + Credit(c, d) >= 1.0
    ensures var (s', ok) := Allowed(c, s, "k", t + d); ok && Holds(s', t + d, left)
  {
    hide Credit;
    assert Evicted(c, s.buckets, t + d) == s.buckets;
    left := Min(tokens + Credit(c, d), c.burst) - 1.0;
    assert s.buckets["k" := Bucket(left, t + d, t + d)] == map["k" := Bucket(left, t + d, t + d)];
  }

  /** Calls of one key, all granted. */
  ghost predicate AllGranted(c: Config, calls: seq<Call>) {
    && ClockForward(calls)
    && forall i :: 0 <= i < |calls| ==> calls[i].key == "k" && Granted(c, calls, i)
  }

  lemma OneMore(c: Config, calls: seq<Call>, t: int)
    requires AllGranted(c, calls) && (|calls| > 0 ==> calls[|calls| - 1].now <= t)
    requires Allowed(c, Run(c, calls), "k", t).1
    ensures var calls' := calls + [Call("k", t)];
      AllGranted(c, calls') && Run(c, calls') == Allowed(c, Run(c, calls), "k", t).0
  {
    hide Allowed;
    var calls' := calls + [Call("k", t)];
    assert calls'[..|calls|] == calls;
    forall i | 0 <= i < |calls'|
      ensures calls'[i].key == "k" && Granted(c, calls', i)
    {
      if i < |calls| {
        assert Granted(c, calls, i) && calls'[..i] == calls[..i];
      }
    }
  }

  lemma {:induction false} AllCounted(c: Config, calls: seq<Call>, j: nat)
    requires AllGranted(c, calls) && j <= |calls|
    ensures Grants(c, calls, 0, j, "k") == j
    decreases j
  {
    hide Granted;
    if j > 0 {
      AllCounted(c, calls, j - 1);
    }
  }

  /** From a time at which the bucket starts afresh, n calls drain it of n tokens. */
  lemma {:induction false} DrainBurst(c: Config, calls: seq<Call>, t: int, n: nat) returns (calls': seq<Call>)
    requires On(c) && c.idleTtl >= 4 && 0 < n && n as real <= c.burst
    requires AllGranted(c, calls) && Ready(c, Run(c, calls), t) && (|calls| > 0 ==> calls[|calls| - 1].now <= t)
    ensures AllGranted(c, calls') && |calls'| == |calls| + n && calls'[|calls'| - 1].now == t
    ensures calls <= calls' && calls'[|calls|].now == t && Holds(Run(c, calls'), t, c.burst - n as real)
    decreases n
  {
    hide Allowed, Run, AllGranted, Holds, Ready;
    if n == 1 {
      FirstCall(c, Run(c, calls), t);
      OneMore(c, calls, t);
      calls' := calls + [Call("k", t)];
    } else {
      var before := DrainBurst(c, calls, t, n - 1);
      NextCall(c, Run(c, before), t, c.burst - (n - 1) as real);
      OneMore(c, before, t);
      calls' := before + [Call("k", t)];
    }
  }

  /** One cycle: drain the bucket and, if there is a delay, take the fraction of a token once it has grown to a whole one. */
  lemma Cycle(c: Config, calls: seq<Call>, t: int, n: nat, d: nat) returns (calls': seq<Call>)
    requires On(c) && c.idleTtl >= 4 && 0 < n && n as real <= c.burst
    requires d > 0 ==> d <= c.idleTtl && c.burst - n as real + Credit(c, d) >= 1.0
    requires AllGranted(c, calls) && Ready(c, Run(c, calls), t) && (|calls| > 0 ==> calls[|calls| - 1].now <= t)
    ensures AllGranted(c, calls') && |calls'| == |calls| + PerCycle(n, d) && calls'[|calls'| - 1].now == t + d
    ensures calls <= calls' && calls'[|calls|].now == t && Ready(c, Run(c, calls'), t + d + c.idleTtl + 1)
  {
    hide Allowed, Run, AllGranted, Credit;
    calls' := DrainBurst(c, calls, t, n);
    if d > 0 {
      var before := calls';
      var left := LateCall(c, Run(c, before), t, c.burst - n as real, d);
      OneMore(c, before, t + d);
      calls' := before + [Call("k", t + d)];
    }
  }

  function PerCycle(n: nat, d: nat): nat {
    if d > 0 then n + 1 else n
  }

  lemma {:induction false} Cycles(c: Config, n: nat, d: nat, q: nat) returns (calls: seq<Call>)
    requires On(c) && c.idleTtl >= 4 && 0 < n && n as real <= c.burst && q > 0
    requires d > 0 ==> d <= c.idleTtl && c.burst - n as real + Credit(c, d) >= 1.0
    ensures AllGranted(c, calls) && |calls| == q * PerCycle(n, d) && |calls| > 0 && calls[0].now == 0
    ensures calls[|calls| - 1].now == (q - 1) * (d + c.idleTtl + 1) + d
    ensures Ready(c, Run(c, calls), q * (d + c.idleTtl + 1))
    decreases q
  {
    hide Credit, AllGranted, Ready, Run;
    var len := d + c.idleTtl + 1;
    if q == 1 {
      FreshStart(c);
      calls := Cycle(c, [], 0, n, d);
    } else {
      var before := Cycles(c, n, d, q - 1);
      calls := Cycle(c, before, (q - 1) * len, n, d);
      assert (q - 1) * PerCycle(n, d) + PerCycle(n, d) == q * PerCycle(n, d);
      assert (q - 1) * len + len == q * len;
      assert (q - 2) * len + len == (q - 1) * len;
    }
  }

  lemma FreshStart(c: Config)
    ensures AllGranted(c, []) && Ready(c, Run(c, []), 0)
  {
  }

  lemma {:induction false} CreditTimes(c: Config, q: nat, len: int)
    ensures Credit(c, q * len) == q as real * Credit(c, len)
  {
    hide Credit;
    if q == 0 {
      CreditAdd(c, 0, 0);
    } else {
      CreditTimes(c, q - 1, len);
      CreditAdd(c, (q - 1) * len, len);
      assert (q - 1) * len + len == q * len;
      assert (q - 1) as real * Credit(c, len) + Credit(c, len) == q as real * Credit(c, len);
    }
  }

  /** A multiple of any positive gain exceeds any amount. */
  lemma Often(gain: real, amount: real) returns (q: nat)
    requires gain > 0.0 && amount >= 0.0
    ensures q > 0 && q as real * gain > amount
  {
    var x := amount / gain;
    q := x.Floor + 1;
    assert (q as real) > x;
    assert q as real * gain > x * gain by {
      assert (q as real - x) * gain > 0.0;
    }
  }

  /** Cycles that each grant more than what accrues in them break the bound. */
  lemma CyclesBreak(c: Config, n: nat, d: nat)
    requires On(c) && c.idleTtl >= 4 && 0 < n && n as real <= c.burst
    requires d > 0 ==> d <= c.idleTtl && c.burst - n as real + Credit(c, d) >= 1.0
    requires Credit(c, d + c.idleTtl + 1) < PerCycle(n, d) as real
    ensures !Bounded(c)
  {
    hide Credit, Grants, AllGranted, Ready, Run;
    var len, m := d + c.idleTtl + 1, PerCycle(n, d);
    var q := Often(m as real - Credit(c, len), c.burst);
    var calls := Cycles(c, n, d, q);
    AllCounted(c, calls, |calls|);
    CreditTimes(c, q, len);
    assert (q - 1) * len + d <= q * len by {
      assert (q - 1) * len + len == q * len;
    }
    CreditUp(c, (q - 1) * len + d, q * len);
    assert q as real * (m as real - Credit(c, len)) == q as real * m as real - q as real * Credit(c, len);
    assert (q * m) as real == q as real * m as real;
    assert Grants(c, calls, 0, |calls|, "k") as real > c.burst + Credit(c, calls[|calls| - 1].now - calls[0].now);
    BreaksBound(c, calls);
  }

  lemma BreaksBound(c: Config, calls: seq<Call>)
    requires AllGranted(c, calls) && |calls| > 0
    requires Grants(c, calls, 0, |calls|, "k") as real > c.burst + Credit(c, calls[|calls| - 1].now - calls[0].now)
    ensures !Bounded(c)
  {
    hide Grants, Credit, Granted, ClockForward;
    assert !InBound(c, calls, 0, |calls|, "k");
  }

  /** For a whole number of tokens the bound holds of every run exactly when an idle bucket has had time to fill. */
  lemma WindowExact(c: Config, n: nat)
    requires On(c) && c.burst == n as real && c.idleTtl >= 4
    ensures Bounded(c) <==> FullWhenIdle(c)
  {
    hide Credit, Bounded;
    if FullWhenIdle(c) {
      WindowHolds(c);
    } else {
      CyclesBreak(c, n, 0);
    }
  }

  /** The first time at which a fraction of a token has grown to a whole one. */
  lemma Delay(c: Config, f: real) returns (d: int)
    requires On(c) && 0.0 <= f < 1.0
    ensures d > 0 && f + Credit(c, d) >= 1.0 && f + Credit(c, d - 1) < 1.0
  {
    hide Credit, Mul;
    var u := Credit(c, 1);
    UnitCredit(c);
    var x := Divide(1.0 - f, u);
    d := RoundUp(x);
    CreditUnits(c, d);
    CreditUnits(c, d - 1);
    Scaled(x, d as real, u);
    Scaled((d - 1) as real, x, u);
  }

  function Mul(a: real, b: real): real {
    a * b
  }

  lemma CreditUnits(c: Config, q: nat)
    ensures Credit(c, q) == Mul(q as real, Credit(c, 1))
  {
    hide Credit;
    CreditTimes(c, q, 1);
    assert q * 1 == q;
  }

  lemma Divide(a: real, u: real) returns (x: real)
    requires u > 0.0 && a > 0.0
    ensures Mul(x, u) == a && x > 0.0
  {
    x := a / u;
  }

  lemma RoundUp(x: real) returns (d: int)
    requires x > 0.0
    ensures d > 0 && d as real >= x > (d - 1) as real
  {
    d := if x.Floor as real == x then x.Floor else x.Floor + 1;
  }

  lemma Scaled(a: real, b: real, u: real)
    requires u > 0.0
    ensures (a <= b ==> Mul(a, u) <= Mul(b, u)) && (a < b ==> Mul(a, u) < Mul(b, u))
  {
    assert (b - a) * u == b * u - a * u;
    if a < b {
      assert (b - a) * u > 0.0;
    }
  }

  lemma UnitCredit(c: Config)
    requires On(c)
    ensures Credit(c, 1) > 0.0
  {
  }

  /**
   For every burst of at least one token: the bound holds of every run if a bucket fills within one nanosecond more than
   the idle time, and fails of some run if it takes two nanoseconds more or longer.
   */
  lemma WindowWithinNanosecond(c: Config)
    requires On(c) && c.burst >= 1.0 && c.idleTtl >= 4
    ensures Credit(c, c.idleTtl + 1) >= c.burst ==> Bounded(c)
    ensures Credit(c, c.idleTtl + 2) <= c.burst ==> !Bounded(c)
  {
    hide Credit, Bounded;
    if Credit(c, c.idleTtl + 1) >= c.burst {
      WindowHolds(c);
    }
    if Credit(c, c.idleTtl + 2) <= c.burst {
      SlowFillBreaks(c);
    }
  }

  lemma SlowFillBreaks(c: Config)
    requires On(c) && c.burst >= 1.0 && c.idleTtl >= 4 && Credit(c, c.idleTtl + 2) <= c.burst
    ensures !Bounded(c)
  {
    hide Credit, Bounded;
    var n := c.burst.Floor;
    var f := c.burst - n as real;
    var idle := c.idleTtl;
    UnitCredit(c);
    CreditAdd(c, idle + 1, 1);
    CreditAdd(c, idle, 1);
    if Credit(c, idle + 1) < n as real {
      CyclesBreak(c, n, 0);
    } else {
      var d := Delay(c, f);
      if d > idle {
        CreditUp(c, idle, d - 1);
      }
      assert d <= idle;
      CreditAdd(c, d - 1, idle + 2);
      assert d - 1 + (idle + 2) == d + idle + 1;
      CyclesBreak(c, n, d);
    }
  }

  /** A burst below one token grants a first request it does not cover. */
  lemma SmallBurst(c: Config, key: string)
    requires On(c) && c.burst < 1.0 && key != ""
    ensures Grants(c, [Call(key, 0)], 0, 1, key) as real > c.burst + Credit(c, 0)
  {
    hide Credit;
    CreditAdd(c, 0, 0);
    var calls := [Call(key, 0)];
    assert calls[..0] == [];
    assert Evicted(c, map[], 0) == map[];
    assert Granted(c, calls, 0);
    assert Grants(c, calls, 0, 0, key) == 0;
  }
}
