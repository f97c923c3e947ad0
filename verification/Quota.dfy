/**
 * Token buckets and the circuit breaker (the quota scripts of kernel-api/src/middleware.rs and
 * the Retry-After header of kernel-core/src/quota.rs), over real numbers and one clock.
 *
 * `Script` is the single-key script on the value of its key.  Class `QuotaStore` holds the keys
 * and runs the single-key and the two-pass multi-key script on them.
 */
module Quota {
  import opened Prelude

  datatype Layer = TenantBudget | ApiRateLimit | SystemHardLimit | CircuitBreaker

  datatype Config = Config(rate: real, capacity: real, cost: real, backoff: real, breaker: bool)

  /** What `validate_quota` and the environment loader let through. */
  predicate ValidConfig(c: Config) {
    c.rate > 0.0 && c.capacity > 0.0 && c.cost > 0.0 && c.backoff > 0.0
  }

  datatype Fill = Fill(tokens: real, last: real)

  /** The hash behind a key; tokens and last_refill are written together. */
  datatype Bucket = Bucket(fill: Option<Fill>, open: bool, until: Option<real>, expiresAt: real)

  datatype Reply = Admit(tokens: real) | Deny(retryAfter: int)

  function Ceil(x: real): int { -((-x).Floor) }

  function Max(a: real, b: real): real { if a >= b then a else b }

  function Min(a: real, b: real): real { if a <= b then a else b }

  function Clamp(x: int, lo: int, hi: int): int
    requires lo <= hi
  {
    if x < lo then lo else if x > hi then hi else x
  }

  function Backoff(c: Config): int { Clamp(Ceil(c.backoff), 1, 31536000) }

  function RefillTtlMs(c: Config, tokens: real): int {
    if c.rate <= 0.0 then 1
    else
      var missing := Max(0.0, c.capacity - tokens);
      if missing <= 0.0 then 1
      else if Ceil(missing / c.rate * 1000.0) < 1 then 1 else Ceil(missing / c.rate * 1000.0)
  }

  /** A key past its expiry is absent. */
  function Live(b: Option<Bucket>, now: real): Option<Bucket> {
    if b.Some? && now < b.value.expiresAt then b else None
  }

  /** The tokens available now: an absent bucket is full. */
  function Filled(b: Option<Bucket>, c: Config, now: real): real {
    var l := Live(b, now);
    if l.None? || l.value.fill.None? then c.capacity
    else Min(c.capacity, l.value.fill.value.tokens + Max(0.0, now - l.value.fill.value.last) * c.rate)
  }

  /** The breaker is open and its time has not come. */
  predicate HeldOpen(b: Option<Bucket>, c: Config, now: real) {
    var l := Live(b, now);
    c.breaker && l.Some? && l.value.open && l.value.until.Some? && now < l.value.until.value
  }

  /** The bucket an admission writes. */
  function Spent(b: Option<Bucket>, c: Config, now: real): Bucket {
    var fill := Fill(Filled(b, c, now) - c.cost, now);
    if c.breaker then
      Bucket(Some(fill), false, None, now + RefillTtlMs(c, fill.tokens) as real / 1000.0)
    else
      var l := Live(b, now);
      Bucket(Some(fill), l.Some? && l.value.open, if l.Some? then l.value.until else None, now + 60.0)
  }

  /** The bucket a breaker leaves when it opens: its tokens stay as they were. */
  function Opened(b: Option<Bucket>, c: Config, now: real): Bucket {
    var l := Live(b, now);
    Bucket(if l.Some? then l.value.fill else None, true, Some(now + Backoff(c) as real),
           now + (Backoff(c) + 30) as real)
  }

  function Script(b: Option<Bucket>, c: Config, now: real): (Option<Bucket>, Reply) {
    if HeldOpen(b, c, now) then (b, Deny(Ceil(b.value.until.value - now)))
    else
      var filled := Filled(b, c, now);
      if filled >= c.cost then (Some(Spent(b, c, now)), Admit(filled - c.cost))
      else if c.breaker then (Some(Opened(b, c, now)), Deny(Backoff(c)))
      else (b, Deny(if c.rate <= 0.0 then 60 else Ceil((c.cost - filled) / c.rate)))
  }

  // ---------------------------------------------------------------- arithmetic

  lemma CeilBounds(x: real)
    ensures x <= Ceil(x) as real < x + 1.0
  {
  }

  lemma MulMono(a: real, b: real, r: real)
    requires a <= b && r >= 0.0
    ensures a * r <= b * r
  {
  }

  lemma MulNonneg(a: real, r: real)
    requires a >= 0.0 && r >= 0.0
    ensures a * r >= 0.0
  {
  }

  /** Refilling for at least the needed time makes up the capacity. */
  lemma RefillReaches(tokens: real, span: real, need: real, rate: real, capacity: real)
    requires 0.0 <= tokens && need <= span && rate >= 0.0 && capacity <= need * rate
    ensures tokens + span * rate >= capacity
  {
    MulMono(need, span, rate);
  }

  lemma MulStrict(a: real, b: real, r: real)
    requires a < b && r > 0.0
    ensures a * r < b * r
  {
  }

  lemma Distribute(a: real, b: real, r: real)
    ensures (a + b) * r == a * r + b * r
  {
  }

  lemma CeilScaled(q: real, r: real, h: int)
    requires r > 0.0
    ensures h as real * r >= q * r <==> h >= Ceil(q)
  {
    CeilBounds(q);
    if h >= Ceil(q) {
      MulMono(q, h as real, r);
    } else {
      MulStrict(h as real, q, r);
    }
  }

  lemma DivCeil(x: real, r: real, h: int)
    requires r > 0.0
    ensures h as real * r >= x <==> h >= Ceil(x / r)
  {
    CeilScaled(x / r, r, h);
  }

  // ---------------------------------------------------------------- the window bound

  ghost predicate Nondecreasing(times: seq<real>) {
    forall i, j :: 0 <= i <= j < |times| ==> times[i] <= times[j]
  }

  /** The bucket after calling the script at the given times. */
  ghost function After(b: Option<Bucket>, c: Config, times: seq<real>): Option<Bucket>
    decreases |times|
  {
    if times == [] then b else After(Script(b, c, times[0]).0, c, times[1..])
  }

  /** The total cost admitted by those calls. */
  ghost function Admitted(b: Option<Bucket>, c: Config, times: seq<real>): real
    decreases |times|
  {
    if times == [] then 0.0
    else
      var (next, reply) := Script(b, c, times[0]);
      (if reply.Admit? then c.cost else 0.0) + Admitted(next, c, times[1..])
  }

  /** The capacity refills within the shortest life a written key can have. */
  predicate RefillsBeforeExpiry(c: Config) {
    if c.breaker then c.capacity <= (Backoff(c) + 30) as real * c.rate else c.capacity <= 60.0 * c.rate
  }

  /** By the time the key expires its bucket has refilled, so the reset changes nothing. */
  ghost predicate ExpiresFull(b: Option<Bucket>, c: Config, now: real) {
    b.Some? && b.value.fill.Some? ==>
      var f := b.value.fill.value;
      0.0 <= f.tokens <= c.capacity && f.last <= now && f.tokens + (b.value.expiresAt - f.last) * c.rate >= c.capacity
  }

  lemma RefillTtlSuffices(c: Config, tokens: real)
    requires ValidConfig(c) && tokens <= c.capacity
    ensures RefillTtlMs(c, tokens) >= 1
    ensures tokens + RefillTtlMs(c, tokens) as real / 1000.0 * c.rate >= c.capacity
  {
    var missing := c.capacity - tokens;
    if missing > 0.0 {
      CeilBounds(missing / c.rate * 1000.0);
      MulMono(missing / c.rate, RefillTtlMs(c, tokens) as real / 1000.0, c.rate);
      assert missing / c.rate * c.rate == missing;
    } else {
      MulMono(0.0, RefillTtlMs(c, tokens) as real / 1000.0, c.rate);
    }
  }

  lemma FilledRange(b: Option<Bucket>, c: Config, now: real)
    requires ValidConfig(c) && ExpiresFull(b, c, now)
    ensures 0.0 <= Filled(b, c, now) <= c.capacity
  {
    if Live(b, now).Some? && b.value.fill.Some? {
      MulNonneg(Max(0.0, now - b.value.fill.value.last), c.rate);
    }
  }

  /** While the key lives, its tokens are those written plus the refill since. */
  lemma FilledWhileLive(b: Option<Bucket>, c: Config, now: real)
    requires Live(b, now).Some? && b.value.fill.Some? && b.value.fill.value.last <= now
    ensures Filled(b, c, now) ==
            Min(c.capacity, b.value.fill.value.tokens + (now - b.value.fill.value.last) * c.rate)
  {
  }

  /** Tokens grow no faster than the rate, across an expiry too. */
  lemma FilledGrowth(b: Option<Bucket>, c: Config, s: real, t: real)
    requires ValidConfig(c) && ExpiresFull(b, c, s) && s <= t
    ensures Filled(b, c, t) <= Filled(b, c, s) + (t - s) * c.rate
    ensures ExpiresFull(b, c, t)
  {
    MulNonneg(t - s, c.rate);
    if Live(b, s).Some? && b.value.fill.Some? {
      var f := b.value.fill.value;
      var p, q := (s - f.last) * c.rate, (t - s) * c.rate;
      Distribute(s - f.last, t - s, c.rate);
      assert (s - f.last) + (t - s) == t - f.last;
      assert (t - f.last) * c.rate == p + q;
      FilledWhileLive(b, c, s);
      if Live(b, t).Some? {
        FilledWhileLive(b, c, t);
      } else {
        MulMono(b.value.expiresAt - f.last, t - f.last, c.rate);
      }
    }
  }

  lemma SpentAccounts(b: Option<Bucket>, c: Config, now: real)
    requires ValidConfig(c) && RefillsBeforeExpiry(c) && ExpiresFull(b, c, now) && Filled(b, c, now) >= c.cost
    ensures ExpiresFull(Some(Spent(b, c, now)), c, now)
    ensures Filled(Some(Spent(b, c, now)), c, now) == Filled(b, c, now) - c.cost
  {
    FilledRange(b, c, now);
    var next := Spent(b, c, now);
    var left := Filled(b, c, now) - c.cost;
    if c.breaker {
      RefillTtlSuffices(c, left);
      assert next.expiresAt - now == RefillTtlMs(c, left) as real / 1000.0;
    } else {
      RefillReaches(left, next.expiresAt - now, 60.0, c.rate, c.capacity);
    }
    FilledWhileLive(Some(next), c, now);
    assert (now - now) * c.rate == 0.0;
  }

  lemma OpenedAccounts(b: Option<Bucket>, c: Config, now: real)
    requires ValidConfig(c) && c.breaker && RefillsBeforeExpiry(c) && ExpiresFull(b, c, now)
    ensures ExpiresFull(Some(Opened(b, c, now)), c, now)
    ensures Filled(Some(Opened(b, c, now)), c, now) == Filled(b, c, now)
  {
    var o := Opened(b, c, now);
    if o.fill.Some? {
      var f := o.fill.value;
      RefillReaches(f.tokens, o.expiresAt - f.last, (Backoff(c) + 30) as real, c.rate, c.capacity);
      FilledWhileLive(b, c, now);
      FilledWhileLive(Some(o), c, now);
    }
  }

  /** One call keeps the invariant and takes from the bucket exactly what it admits. */
  lemma ScriptAccounts(b: Option<Bucket>, c: Config, now: real)
    requires ValidConfig(c) && RefillsBeforeExpiry(c) && ExpiresFull(b, c, now)
    ensures var (next, reply) := Script(b, c, now);
            && ExpiresFull(next, c, now)
            && Filled(next, c, now) == Filled(b, c, now) - (if reply.Admit? then c.cost else 0.0)
            && (reply.Admit? ==> reply.tokens == Filled(next, c, now)
                                 && (c.breaker ==> !next.value.open && next.value.until.None?))
  {
    if !HeldOpen(b, c, now) {
      if Filled(b, c, now) >= c.cost {
        SpentAccounts(b, c, now);
      } else if c.breaker {
        OpenedAccounts(b, c, now);
      }
    }
  }

  lemma {:induction false} AdmittedWithin(b: Option<Bucket>, c: Config, times: seq<real>, s: real, t: real)
    requires ValidConfig(c) && RefillsBeforeExpiry(c) && ExpiresFull(b, c, s)
    requires Nondecreasing(times) && s <= t && forall i :: 0 <= i < |times| ==> s <= times[i] <= t
    ensures Admitted(b, c, times) <= Filled(b, c, s) + (t - s) * c.rate
    decreases |times|
  {
    hide Filled, Script, ExpiresFull, RefillsBeforeExpiry;
    if times == [] {
      FilledRange(b, c, s);
      MulNonneg(t - s, c.rate);
    } else {
      var now := times[0];
      FilledGrowth(b, c, s, now);
      ScriptAccounts(b, c, now);
      AdmittedWithin(Script(b, c, now).0, c, times[1..], now, t);
      Distribute(t - now, now - s, c.rate);
      assert (t - now) + (now - s) == t - s;
    }
  }

  lemma {:induction false} AfterKeeps(b: Option<Bucket>, c: Config, times: seq<real>, s: real, t: real)
    requires ValidConfig(c) && RefillsBeforeExpiry(c) && ExpiresFull(b, c, s)
    requires Nondecreasing(times) && s <= t && forall i :: 0 <= i < |times| ==> s <= times[i] <= t
    ensures ExpiresFull(After(b, c, times), c, t)
    decreases |times|
  {
    if times != [] {
      FilledGrowth(b, c, s, times[0]);
      ScriptAccounts(b, c, times[0]);
      AfterKeeps(Script(b, c, times[0]).0, c, times[1..], times[0], t);
    } else {
      FilledGrowth(b, c, s, t);
    }
  }

  /** In every run from an absent key, every window [s, t] admits at most capacity + rate*(t-s). */
  ghost predicate WindowsBounded(c: Config) {
    forall before: seq<real>, window: seq<real>, s, t ::
      Nondecreasing(before + window) && Window(before, window, s, t) ==>
        Admitted(After(None, c, before), c, window) <= c.capacity + (t - s) * c.rate
  }

  ghost predicate Window(before: seq<real>, window: seq<real>, s: real, t: real) {
    && s <= t
    && (forall i :: 0 <= i < |before| ==> before[i] <= s)
    && (forall i :: 0 <= i < |window| ==> s <= window[i] <= t)
  }

  lemma {:induction false} WindowBound(c: Config, before: seq<real>, window: seq<real>, s: real, t: real)
    requires ValidConfig(c) && RefillsBeforeExpiry(c)
    requires Nondecreasing(before + window) && Window(before, window, s, t)
    ensures Admitted(After(None, c, before), c, window) <= c.capacity + (t - s) * c.rate
  {
    var start := if before == [] then s else before[0];
    forall i, j | 0 <= i <= j < |before|
      ensures before[i] <= before[j]
    {
      assert (before + window)[i] <= (before + window)[j];
    }
    forall i, j | 0 <= i <= j < |window|
      ensures window[i] <= window[j]
    {
      assert (before + window)[|before| + i] <= (before + window)[|before| + j];
    }
    AfterKeeps(None, c, before, start, s);
    FilledRange(After(None, c, before), c, s);
    AdmittedWithin(After(None, c, before), c, window, s, t);
  }

  /** A bucket big enough to outlast its key is refilled by the expiry itself. */
  function Overdrawn(c: Config): seq<real> {
    if c.breaker then [0.0, 0.0, (Backoff(c) + 30) as real] else [0.0, 60.0]
  }

  lemma OverdrawnExceeds(c: Config)
    requires ValidConfig(c) && c.cost == c.capacity && !RefillsBeforeExpiry(c)
    ensures Admitted(None, c, Overdrawn(c)) == 2.0 * c.capacity
  {
    var ts := Overdrawn(c);
    var (b1, r1) := Script(None, c, 0.0);
    assert r1.Admit?;
    if c.breaker {
      RefillTtlSuffices(c, 0.0);
      assert b1 == Some(Spent(None, c, 0.0)) && b1.value.fill == Some(Fill(0.0, 0.0));
      assert (0.0 - 0.0) * c.rate == 0.0;
      assert Filled(b1, c, 0.0) == 0.0;
      var (b2, r2) := Script(b1, c, 0.0);
      assert b2 == Some(Opened(b1, c, 0.0)) && r2.Deny?;
      var (b3, r3) := Script(b2, c, ts[2]);
      assert Live(b2, ts[2]).None? && r3.Admit?;
      assert ts[1..] == [0.0, ts[2]] && ts[1..][1..] == [ts[2]] && [ts[2]][1..] == [];
      assert Admitted(b2, c, [ts[2]]) == c.cost;
      assert Admitted(b1, c, [0.0, ts[2]]) == c.cost;
    } else {
      var (b2, r2) := Script(b1, c, 60.0);
      assert Live(b1, 60.0).None? && r2.Admit?;
      assert ts[1..] == [60.0] && [60.0][1..] == [];
      assert Admitted(b1, c, [60.0]) == c.cost;
    }
  }

  /**
   * The token-bucket bound, exactly.  For given rate, capacity and backoff, every cost and every
   * run respects capacity + rate*(t-s) in every window if and only if the capacity refills before
   * a written key can expire: capacity <= 60*rate, or rate*(backoff+30) for the breaker.
   */
  lemma WindowBoundExactly(c: Config)
    requires ValidConfig(c)
    ensures (forall cost :: cost > 0.0 ==> WindowsBounded(c.(cost := cost))) <==> RefillsBeforeExpiry(c)
  {
    if RefillsBeforeExpiry(c) {
      forall cost | cost > 0.0
        ensures WindowsBounded(c.(cost := cost))
      {
        RefillingConfigIsBounded(c.(cost := cost));
      }
    } else {
      OutlastingConfigIsNot(c.(cost := c.capacity));
    }
  }

  lemma {:induction false} RefillingConfigIsBounded(c: Config)
    requires ValidConfig(c) && RefillsBeforeExpiry(c)
    ensures WindowsBounded(c)
  {
    forall before: seq<real>, window: seq<real>, s, t
      | Nondecreasing(before + window) && Window(before, window, s, t)
      ensures Admitted(After(None, c, before), c, window) <= c.capacity + (t - s) * c.rate
    {
      WindowBound(c, before, window, s, t);
    }
  }

  lemma OverdrawnIsAWindow(c: Config, end: real)
    requires end == Overdrawn(c)[|Overdrawn(c)| - 1] && ValidConfig(c)
    ensures Nondecreasing([] + Overdrawn(c)) && Window([], Overdrawn(c), 0.0, end)
    ensures !RefillsBeforeExpiry(c) ==> end * c.rate < c.capacity
  {
  }

  lemma OutlastingConfigIsNot(c: Config)
    requires ValidConfig(c) && c.cost == c.capacity && !RefillsBeforeExpiry(c)
    ensures !WindowsBounded(c)
  {
    var ts := Overdrawn(c);
    var end := ts[|ts| - 1];
    hide Filled, Script, Admitted, RefillsBeforeExpiry, Overdrawn, ValidConfig, Window, Nondecreasing;
    OverdrawnExceeds(c);
    OverdrawnIsAWindow(c, end);
    assert After(None, c, []) == None && end - 0.0 == end;
    assert !(Admitted(After(None, c, []), c, ts) <= c.capacity + (end - 0.0) * c.rate);
  }

  // ---------------------------------------------------------------- the breaker

  lemma {:induction false} OpenBreakerHolds(b: Option<Bucket>, c: Config, t: real, times: seq<real>)
    requires ValidConfig(c) && c.breaker
    requires b.Some? && b.value.open && b.value.until == Some(t) && t <= b.value.expiresAt
    requires forall i :: 0 <= i < |times| ==> times[i] < t
    ensures Admitted(b, c, times) == 0.0 && After(b, c, times) == b
    decreases |times|
  {
    if times != [] {
      assert HeldOpen(b, c, times[0]);
      OpenBreakerHolds(b, c, t, times[1..]);
    }
  }

  /** A breaker that opens admits nothing before its until time, whatever calls arrive. */
  lemma {:induction false} OpenedBreakerAdmitsNothing(b: Option<Bucket>, c: Config, now: real, times: seq<real>)
    requires ValidConfig(c) && c.breaker && !HeldOpen(b, c, now) && Script(b, c, now).1.Deny?
    requires forall i :: 0 <= i < |times| ==> now <= times[i] < now + Backoff(c) as real
    ensures Admitted(Script(b, c, now).0, c, times) == 0.0
  {
    OpenBreakerHolds(Script(b, c, now).0, c, now + Backoff(c) as real, times);
  }

  /**
   * The delay a denying breaker names is exact: it is held open at every whole second before it has
   * passed, and no longer when it has.  A breaker that opens names at least its backoff, up to a year.
   */
  lemma BreakerDelayIsExact(b: Option<Bucket>, c: Config, now: real, k: nat)
    requires ValidConfig(c) && c.breaker && Script(b, c, now).1.Deny?
    requires b.Some? && b.value.open && b.value.until.Some? ==> b.value.until.value <= b.value.expiresAt
    ensures var (next, reply) := Script(b, c, now);
            && reply.retryAfter >= 1
            && (HeldOpen(next, c, now + k as real) <==> k < reply.retryAfter)
            && (!HeldOpen(b, c, now) ==>
                  (if c.backoff > 31536000.0 then reply.retryAfter == 31536000
                   else c.backoff <= reply.retryAfter as real < c.backoff + 1.0))
  {
    CeilBounds(c.backoff);
    if HeldOpen(b, c, now) {
      CeilBounds(b.value.until.value - now);
    }
    hide Filled;
  }

  // ---------------------------------------------------------------- Retry-After

  function RetryCeiling(layer: Layer): int {
    if layer.SystemHardLimit? then 30 else 31536000
  }

  /** The Retry-After header a violation is answered with. */
  function RetryAfterHeader(layer: Layer, retryAfter: int): int {
    Clamp(retryAfter, 1, RetryCeiling(layer))
  }

  /**
   * Retry-After, exactly.  When a non-breaker layer that can ever admit denies with delay r and
   * nothing else uses the key, waiting for the header's value is enough if and only if r is within
   * the layer's ceiling, or the key has expired by then.
   */
  lemma RetryAfterSufficesExactly(layer: Layer, b: Option<Bucket>, c: Config, now: real)
    requires ValidConfig(c) && !c.breaker && c.cost <= c.capacity
    requires b.Some? && b.value.fill.Some? ==> b.value.fill.value.last <= now
    requires Script(b, c, now).1.Deny?
    ensures var r := Script(b, c, now).1.retryAfter;
            var later := now + RetryAfterHeader(layer, r) as real;
            Script(b, c, later).1.Admit? <==> r <= RetryCeiling(layer) || Live(b, later).None?
  {
    var filled := Filled(b, c, now);
    var r := Script(b, c, now).1.retryAfter;
    var h := RetryAfterHeader(layer, r);
    var later := now + h as real;
    DivCeil(c.cost - filled, c.rate, h);
    DivCeil(c.cost - filled, c.rate, 0);
    assert r >= 1;
    var f := b.value.fill.value;
    assert (later - f.last) * c.rate == (now - f.last) * c.rate + h as real * c.rate;
  }

  /**
   * The clamp can cut the delay short: a system bucket that takes more than 30 seconds to refill,
   * emptied by one call, denies the next call and denies again after the 30 seconds of its header.
   */
  lemma ClampedRetryIsDenied(c: Config, now: real)
    requires ValidConfig(c) && !c.breaker && c.cost == c.capacity && c.capacity > 30.0 * c.rate
    ensures var (b, first) := Script(None, c, now);
            && first.Admit? && Script(b, c, now).1.Deny?
            && RetryAfterHeader(SystemHardLimit, Script(b, c, now).1.retryAfter) == 30
            && Script(b, c, now + 30.0).1.Deny?
  {
    var b := Script(None, c, now).0;
    assert b == Some(Bucket(Some(Fill(0.0, now)), false, None, now + 60.0));
    assert (now - now) * c.rate == 0.0;
    assert Filled(b, c, now) == 0.0;
    DivCeil(c.cost - 0.0, c.rate, 30);
    assert Script(b, c, now).1 == Deny(Ceil((c.cost - 0.0) / c.rate));
    hide Script;
    RetryAfterSufficesExactly(SystemHardLimit, b, c, now);
  }

  // ---------------------------------------------------------------- the keys

  datatype Check = Check(layer: Layer, key: string, config: Config)

  datatype Violation = Violation(layer: Layer, retryAfter: int)

  type Keys = map<string, Bucket>

  function At(keys: Keys, key: string): Option<Bucket> {
    if key in keys then Some(keys[key]) else None
  }

  /** The single-key script run on the store. */
  function RunSingle(keys: Keys, check: Check, now: real): (Keys, Reply) {
    var (b, reply) := Script(At(keys, check.key), check.config, now);
    (if b.Some? then keys[check.key := b.value] else keys, reply)
  }

  /** The single-key scripts one after another, as far as all admit. */
  ghost function RunEach(keys: Keys, checks: seq<Check>, now: real): Keys {
    if checks == [] then keys
    else RunSingle(RunEach(keys, checks[..|checks| - 1], now), checks[|checks| - 1], now).0
  }

  predicate Admits(keys: Keys, check: Check, now: real) {
    Script(At(keys, check.key), check.config, now).1.Admit?
  }

  ghost predicate DistinctKeys(checks: seq<Check>) {
    forall i, j :: 0 <= i < j < |checks| ==> checks[i].key != checks[j].key
  }

  /** A key not among the checks is untouched; a checked key gets what its own script writes. */
  lemma {:induction false} RunEachAt(keys: Keys, checks: seq<Check>, now: real, key: string)
    requires DistinctKeys(checks) && forall i :: 0 <= i < |checks| ==> Admits(keys, checks[i], now)
    ensures (forall i :: 0 <= i < |checks| ==> checks[i].key != key) ==>
              At(RunEach(keys, checks, now), key) == At(keys, key)
    ensures forall i :: 0 <= i < |checks| && checks[i].key == key ==>
              At(RunEach(keys, checks, now), key) == Some(Spent(At(keys, key), checks[i].config, now))
  {
    hide Filled, Spent;
    if checks != [] {
      var before, last := checks[..|checks| - 1], checks[|checks| - 1];
      RunEachAt(keys, before, now, key);
      RunEachAt(keys, before, now, last.key);
      assert forall i :: 0 <= i < |before| ==> before[i] == checks[i];
    }
  }

  /** The tokens and refill time a script would read, if any. */
  function FillOf(b: Option<Bucket>, now: real): Option<Fill> {
    if Live(b, now).Some? then b.value.fill else None
  }

  /** No tokens and no refill time of any key differ. */
  ghost predicate SameFills(a: Keys, b: Keys, now: real) {
    forall key :: FillOf(At(a, key), now) == FillOf(At(b, key), now)
  }

  class QuotaStore {
    var keys: Keys

    constructor ()
      ensures keys == map[]
    {
      keys := map[];
    }

    method CheckAndUpdate(check: Check, now: real) returns (r: Option<Violation>)
      modifies this
      ensures keys == RunSingle(old(keys), check, now).0
      ensures r == match RunSingle(old(keys), check, now).1
                   case Admit(_) => None
                   case Deny(retry) => Some(Violation(check.layer, retry))
    {
      var c, key := check.config, check.key;
      var live := if key in keys && now < keys[key].expiresAt then Some(keys[key]) else None;
      if c.breaker && live.Some? && live.value.open && live.value.until.Some? && now < live.value.until.value {
        assert old(keys)[key := keys[key]] == keys;
        return Some(Violation(check.layer, Ceil(live.value.until.value - now)));
      }
      var tokens, last := c.capacity, now;
      if live.Some? && live.value.fill.Some? {
        tokens, last := live.value.fill.value.tokens, live.value.fill.value.last;
      }
      var filled := Min(c.capacity, tokens + Max(0.0, now - last) * c.rate);
      assert filled == Filled(At(old(keys), key), c, now) by {
        assert last == now ==> Max(0.0, now - last) * c.rate == 0.0;
      }
      hide Filled;
      if filled >= c.cost {
        keys := keys[key := Spent(live, c, now)];
        return None;
      } else if c.breaker {
        keys := keys[key := Opened(live, c, now)];
        return Some(Violation(check.layer, Backoff(c)));
      } else {
        assert key in keys ==> old(keys)[key := keys[key]] == keys;
        return Some(Violation(check.layer, if c.rate <= 0.0 then 60 else Ceil((c.cost - filled) / c.rate)));
      }
    }

    /** The first pass reads every key; only a breaker that fails is written, and ends the pass. */
    method Validate(checks: seq<Check>, now: real) returns (spent: seq<Bucket>, denial: Option<(nat, int)>)
      modifies this
      ensures denial.None? ==>
                keys == old(keys) && AllAdmit(old(keys), checks, now) && AllSpent(old(keys), checks, now, spent)
      ensures denial.Some? ==> FirstFailure(old(keys), checks, now, denial.value.0)
                               && keys == RunSingle(old(keys), checks[denial.value.0], now).0
                               && Deny(denial.value.1) == RunSingle(old(keys), checks[denial.value.0], now).1
    {
      hide Filled, Spent, Opened;
      spent := [];
      for i := 0 to |checks|
        invariant keys == old(keys) && |spent| == i
        invariant AllAdmit(keys, checks[..i], now) && AllSpent(keys, checks[..i], now, spent)
      {
        var c, b := checks[i].config, At(keys, checks[i].key);
        if HeldOpen(b, c, now) {
          assert keys == RunSingle(keys, checks[i], now).0;
          return spent, Some((i, Ceil(b.value.until.value - now)));
        }
        var filled := Filled(b, c, now);
        if filled < c.cost {
          if c.breaker {
            keys := keys[checks[i].key := Opened(b, c, now)];
            return spent, Some((i, Backoff(c)));
          } else {
            assert keys == RunSingle(keys, checks[i], now).0;
            return spent, Some((i, if c.rate <= 0.0 then 60 else Ceil((c.cost - filled) / c.rate)));
          }
        }
        spent := spent + [Spent(b, c, now)];
      }
      assert checks[..|checks|] == checks;
      return spent, None;
    }

    /** The second pass writes what the first one computed. */
    method Commit(ghost before: Keys, checks: seq<Check>, spent: seq<Bucket>, now: real)
      requires keys == before && DistinctKeys(checks)
      requires AllAdmit(before, checks, now) && AllSpent(before, checks, now, spent)
      modifies this
      ensures keys == RunEach(before, checks, now)
    {
      hide Filled, Spent, Script;
      for i := 0 to |checks|
        invariant keys == RunEach(before, checks[..i], now)
      {
        CommitOne(before, checks, i, now);
        keys := keys[checks[i].key := spent[i]];
      }
      assert checks[..|checks|] == checks;
    }

    /**
     * The two-pass script: it admits exactly when every single-key script would, and then leaves
     * the state of running them one after another; a denial names the first layer that fails,
     * with that script's delay, and changes at most that layer's breaker, never any tokens.
     */
    method CheckAndUpdateMulti(checks: seq<Check>, now: real) returns (r: Option<Violation>)
      requires DistinctKeys(checks)
      modifies this
      ensures r.None? <==> AllAdmit(old(keys), checks, now)
      ensures r.None? ==> keys == RunEach(old(keys), checks, now)
      ensures r.Some? ==>
                exists i: nat ::
                  && FirstFailure(old(keys), checks, now, i)
                  && RunSingle(old(keys), checks[i], now) == (keys, Deny(r.value.retryAfter))
                  && r.value.layer == checks[i].layer
      ensures r.Some? ==> SameFills(keys, old(keys), now)
    {
      var spent, denial := Validate(checks, now);
      hide Filled, Spent, Opened, Script, FillOf;
      if denial.Some? {
        var (i, retry) := denial.value;
        DenialKeepsFills(old(keys), checks[i], now);
        return Some(Violation(checks[i].layer, retry));
      }
      Commit(old(keys), checks, spent, now);
      return None;
    }
  }

  ghost predicate AllAdmit(keys: Keys, checks: seq<Check>, now: real) {
    forall i :: 0 <= i < |checks| ==> Admits(keys, checks[i], now)
  }

  ghost predicate AllSpent(keys: Keys, checks: seq<Check>, now: real, spent: seq<Bucket>) {
    |spent| == |checks| &&
    forall i :: 0 <= i < |checks| ==> spent[i] == Spent(At(keys, checks[i].key), checks[i].config, now)
  }

  ghost predicate FirstFailure(keys: Keys, checks: seq<Check>, now: real, i: nat) {
    i < |checks| && !Admits(keys, checks[i], now) && AllAdmit(keys, checks[..i], now)
  }

  /** Writing the precomputed bucket is what running the single-key script at that point does. */
  lemma CommitOne(before: Keys, checks: seq<Check>, i: nat, now: real)
    requires DistinctKeys(checks) && AllAdmit(before, checks, now) && i < |checks|
    ensures RunEach(before, checks[..i + 1], now) ==
            RunEach(before, checks[..i], now)[checks[i].key := Spent(At(before, checks[i].key), checks[i].config, now)]
  {
    hide Filled, Spent;
    RunEachAt(before, checks[..i], now, checks[i].key);
    assert Admits(before, checks[i], now);
    assert checks[..i + 1][..i] == checks[..i];
  }

  lemma DenialKeepsFills(keys: Keys, check: Check, now: real)
    requires !Admits(keys, check, now)
    ensures SameFills(RunSingle(keys, check, now).0, keys, now)
  {
    hide Filled;
  }

  // ---------------------------------------------------------------- shipped defaults

  function DefaultConfig(layer: Layer): Config {
    match layer
    case SystemHardLimit => Config(1000.0, 1000.0, 1.0, 30.0, false)
    case TenantBudget => Config(1000.0, 3000.0, 5.0, 30.0, false)
    case ApiRateLimit => Config(16.666, 100.0, 1.0, 30.0, false)
    case CircuitBreaker => Config(10.0, 100.0, 1.0, 30.0, true)
  }

  lemma DefaultsRefill(layer: Layer)
    ensures ValidConfig(DefaultConfig(layer)) && RefillsBeforeExpiry(DefaultConfig(layer))
  {
  }

  /** As many calls at once as the capacity pays for are admitted. */
  lemma {:induction false} BurstIsAdmitted(b: Option<Bucket>, c: Config, now: real, k: nat)
    requires ValidConfig(c) && RefillsBeforeExpiry(c) && ExpiresFull(b, c, now) && !HeldOpen(b, c, now)
    requires k as real * c.cost <= Filled(b, c, now)
    ensures Admitted(b, c, seq(k, i => now)) == k as real * c.cost
    decreases k
  {
    hide Filled, ExpiresFull, RefillsBeforeExpiry, Script, HeldOpen;
    if k > 0 {
      MulMono(1.0, k as real, c.cost);
      Distribute((k - 1) as real, 1.0, c.cost);
      PaidCallIsAdmitted(b, c, now);
      ScriptAccounts(b, c, now);
      assert seq(k, i => now)[1..] == seq(k - 1, i => now);
      BurstIsAdmitted(Script(b, c, now).0, c, now, k - 1);
    }
  }

  lemma PaidCallIsAdmitted(b: Option<Bucket>, c: Config, now: real)
    requires !HeldOpen(b, c, now) && Filled(b, c, now) >= c.cost
    ensures Script(b, c, now).1.Admit? && !HeldOpen(Script(b, c, now).0, c, now)
  {
    hide Filled;
  }

  /** The bursts the shipped layers take: 1000 requests of the system, 600 of a tenant, 100 of the others. */
  lemma DefaultBursts(layer: Layer, now: real)
    ensures var burst := match layer
                         case SystemHardLimit => 1000
                         case TenantBudget => 600
                         case ApiRateLimit => 100
                         case CircuitBreaker => 100;
            var c := DefaultConfig(layer);
            && Admitted(None, c, seq(burst, i => now)) == c.capacity
            && burst as real * c.cost == c.capacity
  {
    var c := DefaultConfig(layer);
    DefaultsRefill(layer);
    var burst := match layer
                 case SystemHardLimit => 1000
                 case TenantBudget => 600
                 case ApiRateLimit => 100
                 case CircuitBreaker => 100;
    assert burst as real * c.cost == c.capacity;
    BurstIsAdmitted(None, c, now, burst);
  }

  /** Every layer as shipped respects its rate in every window of every run. */
  lemma DefaultLayersAreBounded(layer: Layer)
    ensures WindowsBounded(DefaultConfig(layer))
  {
    DefaultsRefill(layer);
    hide *;
    RefillingConfigIsBounded(DefaultConfig(layer));
  }

  /** The same in numbers: what each shipped layer admits at most in a window. */
  lemma DefaultLimits(layer: Layer, before: seq<real>, window: seq<real>, s: real, t: real)
    requires Nondecreasing(before + window) && Window(before, window, s, t)
    ensures var admitted := Admitted(After(None, DefaultConfig(layer), before), DefaultConfig(layer), window);
            match layer
            case SystemHardLimit => admitted <= 1000.0 + (t - s) * 1000.0
            case TenantBudget => admitted <= 3000.0 + (t - s) * 1000.0
            case ApiRateLimit => admitted <= 100.0 + (t - s) * 16.666
            case CircuitBreaker => admitted <= 100.0 + (t - s) * 10.0
  {
    DefaultsRefill(layer);
    hide Admitted, After, Nondecreasing, Window, RefillsBeforeExpiry, ValidConfig;
    WindowBound(DefaultConfig(layer), before, window, s, t);
  }
}
