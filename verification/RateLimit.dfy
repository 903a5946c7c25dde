/** The token-bucket rate limiter of agentiso/src/mcp/rate_limit.rs. Times are real numbers of
    seconds on one monotonic clock, and token counts are exact. */
module RateLimit {
  import opened Prelude

  datatype Bucket = Bucket(tokens: real, maxTokens: real, refillRate: real, lastRefill: real)

  function Min(a: real, b: real): real { if a < b then a else b }

  function NewBucket(maxTokens: U32, perMinute: U32, now: real): Bucket {
    Bucket(maxTokens as real, maxTokens as real, perMinute as real / 60.0, now)
  }

  /** Refill by `gain` up to the cap, then take one token if there is one. */
  function Take(tokens: real, maxTokens: real, gain: real): (real, bool) {
    var refilled := Min(tokens + gain, maxTokens);
    if refilled >= 1.0 then (refilled - 1.0, true) else (refilled, false)
  }

  /** What accrued since the last refill; an earlier `now` counts as no time at all. */
  function Gain(b: Bucket, now: real): real {
    var elapsed := if now > b.lastRefill then now - b.lastRefill else 0.0;
    elapsed * b.refillRate
  }

  /** One call at time `now`: the bucket afterwards, and whether the call is admitted. */
  function Acquire(b: Bucket, now: real): (Bucket, bool) {
    var (tokens, ok) := Take(b.tokens, b.maxTokens, Gain(b, now));
    (b.(tokens := tokens, lastRefill := now), ok)
  }

  class TokenBucket {
    var tokens: real
    const maxTokens: real
    const refillRate: real
    var lastRefill: real

    function View(): Bucket
      reads this
    {
      Bucket(tokens, maxTokens, refillRate, lastRefill)
    }

    constructor (maxTokens: U32, perMinute: U32, now: real)
      ensures View() == NewBucket(maxTokens, perMinute, now)
    {
      this.tokens := maxTokens as real;
      this.maxTokens := maxTokens as real;
      this.refillRate := perMinute as real / 60.0;
      this.lastRefill := now;
    }

    method TryAcquire(now: real) returns (ok: bool)
      modifies this
      ensures (View(), ok) == Acquire(old(View()), now)
    {
      var elapsed := if now > lastRefill then now - lastRefill else 0.0;
      lastRefill := now;
      var gain := elapsed * refillRate;
      assert gain == Gain(old(View()), now);
      tokens := Min(tokens + gain, maxTokens);
      if tokens >= 1.0 {
        tokens := tokens - 1.0;
        ok := true;
      } else {
        ok := false;
      }
    }
  }

  // ---- The core of a bucket: a level that rises with an earnings clock up to a cap ----

  /** The level after the first `n` calls, when call `i` finds `clock[i]` tokens earned so far. */
  function Level(cap: real, clock: seq<real>, n: nat): real
    requires n <= |clock|
  {
    if n == 0 then cap
    else Take(Level(cap, clock, n - 1), cap, if n == 1 then 0.0 else clock[n - 1] - clock[n - 2]).0
  }

  predicate Passes(cap: real, clock: seq<real>, i: nat)
    requires i < |clock|
  {
    Take(Level(cap, clock, i), cap, if i == 0 then 0.0 else clock[i] - clock[i - 1]).1
  }

  /** How many of the first `n` calls pass. */
  function Count(cap: real, clock: seq<real>, n: nat): nat
    requires n <= |clock|
  {
    if n == 0 then 0 else Count(cap, clock, n - 1) + if Passes(cap, clock, n - 1) then 1 else 0
  }

  /** What is left after `n` calls if the level was at the cap just before call `k` and never since. */
  function Line(cap: real, clock: seq<real>, k: nat, n: nat): real
    requires k < n <= |clock|
  {
    cap + (clock[n - 1] - clock[k]) - (Count(cap, clock, n) - Count(cap, clock, k)) as real
  }

  /** The closed form: after `n` calls the level is the least of the lines through the earlier calls. */
  lemma {:induction false} LevelIsLeastLine(cap: real, clock: seq<real>, n: nat)
    requires 0 < n <= |clock|
    ensures forall k :: 0 <= k < n ==> Level(cap, clock, n) <= Line(cap, clock, k, n)
    ensures exists k :: 0 <= k < n && Level(cap, clock, n) == Line(cap, clock, k, n)
  {
    var m := n - 1;
    var spent := if Passes(cap, clock, m) then 1.0 else 0.0;
    assert Line(cap, clock, m, n) == cap - spent;
    if m == 0 {
      assert Level(cap, clock, n) == Line(cap, clock, 0, n);
    } else {
      LevelIsLeastLine(cap, clock, m);
      var gain := clock[m] - clock[m - 1];
      assert Level(cap, clock, n) == Min(Level(cap, clock, m) + gain, cap) - spent;
      forall k | 0 <= k < m
        ensures Line(cap, clock, k, n) == Line(cap, clock, k, m) + gain - spent
      {
      }
      var k :| 0 <= k < m && Level(cap, clock, m) == Line(cap, clock, k, m);
      assert Level(cap, clock, n) == Line(cap, clock, k, n) || Level(cap, clock, n) == Line(cap, clock, m, n);
    }
  }

  /** Call `i` is refused exactly when passing it would put more than the cap plus what was
      earned into the calls from some `k` up to it. */
  lemma RefusedByLine(cap: real, clock: seq<real>, i: nat) returns (k: nat)
    requires i < |clock|
    ensures k <= i
    ensures !Passes(cap, clock, i) ==>
              (Count(cap, clock, i) - Count(cap, clock, k)) as real + 1.0 > cap + (clock[i] - clock[k])
    ensures Passes(cap, clock, i) ==> forall j :: 0 <= j <= i ==>
              (Count(cap, clock, i) - Count(cap, clock, j)) as real + 1.0 <= cap + (clock[i] - clock[j])
  {
    LevelIsLeastLine(cap, clock, i + 1);
    var t := Level(cap, clock, i + 1);
    k :| 0 <= k < i + 1 && t == Line(cap, clock, k, i + 1);
    if Passes(cap, clock, i) {
      assert t >= 0.0;
      forall j | 0 <= j <= i
        ensures (Count(cap, clock, i) - Count(cap, clock, j)) as real + 1.0 <= cap + (clock[i] - clock[j])
      {
        assert t <= Line(cap, clock, j, i + 1);
      }
    }
  }

  lemma {:induction false} CountGrows(cap: real, clock: seq<real>, k: nat, n: nat)
    requires k <= n <= |clock|
    ensures Count(cap, clock, k) <= Count(cap, clock, n)
  {
    if k < n {
      CountGrows(cap, clock, k, n - 1);
    }
  }

  // ---- One bucket over a sequence of call times ----

  /** The bucket after the first `n` calls. */
  function After(b: Bucket, times: seq<real>, n: nat): Bucket
    requires n <= |times|
  {
    if n == 0 then b else Acquire(After(b, times, n - 1), times[n - 1]).0
  }

  predicate Admits(b: Bucket, times: seq<real>, i: nat)
    requires i < |times|
  {
    Acquire(After(b, times, i), times[i]).1
  }

  ghost predicate Sorted(times: seq<real>) {
    forall i, j :: 0 <= i <= j < |times| ==> times[i] <= times[j]
  }

  /** A bucket as created, before calls at nondecreasing times. */
  ghost predicate FreshBefore(b: Bucket, times: seq<real>) {
    && b.tokens == b.maxTokens && b.refillRate >= 0.0 && Sorted(times)
    && (forall i :: 0 <= i < |times| ==> b.lastRefill <= times[i])
  }

  /** How many calls a window of the given length may contain: burst + rate * length. */
  function Allowance(b: Bucket, length: real): real { b.maxTokens + b.refillRate * length }

  ghost function Earnings(b: Bucket, times: seq<real>): (clock: seq<real>)
    ensures |clock| == |times|
  {
    seq(|times|, i requires 0 <= i < |times| => b.refillRate * times[i])
  }

  lemma Earned(r: real, from: real, to: real)
    requires r >= 0.0 && from <= to
    ensures (to - from) * r == r * to - r * from == r * (to - from) >= 0.0
  {
  }

  lemma AllowanceIsEarned(b: Bucket, times: seq<real>, k: nat, i: nat)
    requires k < |times| && i < |times|
    ensures Allowance(b, times[i] - times[k]) == b.maxTokens + (Earnings(b, times)[i] - Earnings(b, times)[k])
  {
  }

  lemma GainIsEarned(b: Bucket, times: seq<real>, a: Bucket, n: nat)
    requires FreshBefore(b, times) && n < |times| && a.refillRate == b.refillRate
    requires a.lastRefill == (if n == 0 then b.lastRefill else times[n - 1])
    ensures if n == 0 then Gain(a, times[n]) >= 0.0
            else Gain(a, times[n]) == Earnings(b, times)[n] - Earnings(b, times)[n - 1]
  {
    Earned(b.refillRate, a.lastRefill, times[n]);
  }

  /** A full bucket stays full, whatever it earns. */
  lemma FullTake(cap: real, gain: real)
    requires gain >= 0.0
    ensures Take(cap, cap, gain) == Take(cap, cap, 0.0)
  {
  }

  ghost predicate TracksLevel(b: Bucket, times: seq<real>, n: nat)
    requires n <= |times|
  {
    var a := After(b, times, n);
    && a.tokens == Level(b.maxTokens, Earnings(b, times), n)
    && a.maxTokens == b.maxTokens && a.refillRate == b.refillRate
    && a.lastRefill == (if n == 0 then b.lastRefill else times[n - 1])
  }

  lemma BucketStep(b: Bucket, times: seq<real>, n: nat)
    requires FreshBefore(b, times) && n < |times| && TracksLevel(b, times, n)
    ensures TracksLevel(b, times, n + 1)
    ensures Admits(b, times, n) <==> Passes(b.maxTokens, Earnings(b, times), n)
  {
    hide Gain, Earnings;
    var a := After(b, times, n);
    GainIsEarned(b, times, a, n);
    if n == 0 {
      FullTake(b.maxTokens, Gain(a, times[0]));
    }
  }

  /** A bucket over call times is the core over what those times earn. */
  lemma {:induction false} BucketIsLevel(b: Bucket, times: seq<real>, n: nat)
    requires FreshBefore(b, times) && n <= |times|
    ensures TracksLevel(b, times, n)
    ensures n < |times| ==> (Admits(b, times, n) <==> Passes(b.maxTokens, Earnings(b, times), n))
  {
    if n > 0 {
      BucketIsLevel(b, times, n - 1);
      BucketStep(b, times, n - 1);
    }
    if n < |times| {
      BucketStep(b, times, n);
    }
  }

  /** How many of the first `n` calls fall at or after time `from` and are admitted. */
  function CountSince(b: Bucket, times: seq<real>, from: real, n: nat): nat
    requires n <= |times|
  {
    if n == 0 then 0
    else CountSince(b, times, from, n - 1) + if times[n - 1] >= from && Admits(b, times, n - 1) then 1 else 0
  }

  /** The closed form in time: after `n` calls the bucket holds the least, over the calls `k`,
      of burst + rate * (time since call k) - (calls admitted from call k on). */
  lemma ClosedForm(b: Bucket, times: seq<real>, n: nat)
    requires FreshBefore(b, times) && 0 < n <= |times|
    ensures forall k :: 0 <= k < n ==>
              After(b, times, n).tokens <= TimeLine(b, times, k, n)
    ensures exists k :: 0 <= k < n && After(b, times, n).tokens == TimeLine(b, times, k, n)
  {
    hide Gain, Take, Earnings, Allowance;
    var clock := Earnings(b, times);
    BucketIsLevel(b, times, n);
    LevelIsLeastLine(b.maxTokens, clock, n);
    forall k | 0 <= k < n
      ensures TimeLine(b, times, k, n) == Line(b.maxTokens, clock, k, n)
    {
      AdmittedFromIs(b, times, k, n);
      AllowanceIsEarned(b, times, k, n - 1);
    }
    var k :| 0 <= k < n && Level(b.maxTokens, clock, n) == Line(b.maxTokens, clock, k, n);
    assert After(b, times, n).tokens == TimeLine(b, times, k, n);
  }

  function AdmittedFrom(b: Bucket, times: seq<real>, k: nat, n: nat): nat
    requires k <= n <= |times|
  {
    if k == n then 0 else AdmittedFrom(b, times, k, n - 1) + if Admits(b, times, n - 1) then 1 else 0
  }

  function TimeLine(b: Bucket, times: seq<real>, k: nat, n: nat): real
    requires k < n <= |times|
  {
    Allowance(b, times[n - 1] - times[k]) - AdmittedFrom(b, times, k, n) as real
  }

  lemma {:induction false} AdmittedFromIs(b: Bucket, times: seq<real>, k: nat, n: nat)
    requires FreshBefore(b, times) && k <= n <= |times|
    ensures AdmittedFrom(b, times, k, n) ==
            Count(b.maxTokens, Earnings(b, times), n) - Count(b.maxTokens, Earnings(b, times), k)
  {
    if k < n {
      AdmittedFromIs(b, times, k, n - 1);
      BucketIsLevel(b, times, n - 1);
    }
  }

  // ---- Windows ----

  /** Admitting call `i` would put more than the allowance into the window that starts at
      `from` and ends with call `i`. */
  ghost predicate WouldOverfill(b: Bucket, times: seq<real>, from: real, i: nat)
    requires i < |times|
  {
    from <= times[i] &&
    CountSince(b, times, from, i) as real + 1.0 > Allowance(b, times[i] - from)
  }

  /** The first call at or after `from`. */
  lemma {:induction false} FirstSince(times: seq<real>, from: real, i: nat) returns (k: nat)
    requires i < |times| && from <= times[i] && Sorted(times)
    ensures k <= i && forall j :: 0 <= j < |times| ==> (times[j] >= from <==> j >= k)
  {
    if i > 0 && from <= times[i - 1] {
      k := FirstSince(times, from, i - 1);
    } else {
      k := i;
    }
  }

  lemma {:induction false} CountSinceFrom(b: Bucket, times: seq<real>, from: real, k: nat, n: nat)
    requires FreshBefore(b, times) && k <= |times| && n <= |times|
    requires forall i :: 0 <= i < |times| ==> (times[i] >= from <==> i >= k)
    ensures var clock := Earnings(b, times);
            CountSince(b, times, from, n) ==
            if n <= k then 0 else Count(b.maxTokens, clock, n) - Count(b.maxTokens, clock, k)
  {
    if n > 0 {
      CountSinceFrom(b, times, from, k, n - 1);
      BucketIsLevel(b, times, n - 1);
    }
  }

  /** A call is refused exactly when admitting it would overfill some window ending now. */
  lemma RefusedExactly(b: Bucket, times: seq<real>, i: nat)
    requires FreshBefore(b, times) && i < |times|
    ensures !Admits(b, times, i) <==> exists from :: WouldOverfill(b, times, from, i)
  {
    BucketIsLevel(b, times, i);
    if !Admits(b, times, i) {
      RefusedOverfills(b, times, i);
    } else if from :| WouldOverfill(b, times, from, i) {
      AdmittedFits(b, times, from, i);
    }
  }

  lemma RefusedOverfills(b: Bucket, times: seq<real>, i: nat)
    requires FreshBefore(b, times) && i < |times| && !Admits(b, times, i)
    ensures exists from :: WouldOverfill(b, times, from, i)
  {
    hide Gain, Take, Earnings, Allowance;
    var clock := Earnings(b, times);
    BucketIsLevel(b, times, i);
    var k := RefusedByLine(b.maxTokens, clock, i);
    var first := FirstSince(times, times[k], k);
    CountSinceFrom(b, times, times[k], first, i);
    CountGrows(b.maxTokens, clock, first, k);
    CountGrows(b.maxTokens, clock, k, i);
    AllowanceIsEarned(b, times, k, i);
    assert WouldOverfill(b, times, times[k], i);
  }

  lemma AdmittedFits(b: Bucket, times: seq<real>, from: real, i: nat)
    requires FreshBefore(b, times) && i < |times| && Admits(b, times, i)
    ensures !WouldOverfill(b, times, from, i)
  {
    hide Gain, Earnings, Allowance;
    if from <= times[i] {
      var first := AdmittedFitsFrom(b, times, from, i);
      AllowanceIsEarned(b, times, first, i);
      LongerAllowsMore(b, times[i] - times[first], times[i] - from);
    }
  }

  lemma AdmittedFitsFrom(b: Bucket, times: seq<real>, from: real, i: nat) returns (first: nat)
    requires FreshBefore(b, times) && i < |times| && Admits(b, times, i) && from <= times[i]
    ensures first <= i && from <= times[first]
    ensures CountSince(b, times, from, i) as real + 1.0
              <= b.maxTokens + (Earnings(b, times)[i] - Earnings(b, times)[first])
  {
    hide Admits, Acquire, Passes, Earnings;
    var clock := Earnings(b, times);
    BucketIsLevel(b, times, i);
    var k := RefusedByLine(b.maxTokens, clock, i);
    first := FirstSince(times, from, i);
    CountSinceFrom(b, times, from, first, i);
    assert CountSince(b, times, from, i) == Count(b.maxTokens, clock, i) - Count(b.maxTokens, clock, first);
  }

  lemma LongerAllowsMore(b: Bucket, short: real, long: real)
    requires b.refillRate >= 0.0 && short <= long
    ensures Allowance(b, short) <= Allowance(b, long) && Allowance(b, 0.0) == b.maxTokens
  {
    assert b.refillRate * (long - short) >= 0.0;
  }

  /** No window, wherever it starts, ever contains more than burst + rate * length admitted calls. */
  lemma {:induction false} WindowBound(b: Bucket, times: seq<real>, from: real, to: real, n: nat)
    requires FreshBefore(b, times) && n <= |times| && from <= to && b.maxTokens >= 0.0
    requires forall i :: 0 <= i < n ==> times[i] <= to
    ensures CountSince(b, times, from, n) as real <= Allowance(b, to - from)
  {
    hide Gain, Allowance;
    LongerAllowsMore(b, 0.0, to - from);
    if n > 0 {
      if times[n - 1] >= from && Admits(b, times, n - 1) {
        AdmittedFits(b, times, from, n - 1);
        LongerAllowsMore(b, times[n - 1] - from, to - from);
      } else {
        WindowBound(b, times, from, to, n - 1);
      }
    }
  }

  // ---- The limiter: one bucket per category, unknown categories sharing the default one ----

  /** The keys of the bucket map: the four category names the limiter knows. */
  datatype Category = Create | Exec | Default | TeamMessage

  const ALL: set<Category> := {Create, Exec, Default, TeamMessage}

  function Known(name: string): Option<Category> {
    if name == "create" then Some(Create)
    else if name == "exec" then Some(Exec)
    else if name == "default" then Some(Default)
    else if name == "team_message" then Some(TeamMessage)
    else None
  }

  function Route(name: string): Category {
    match Known(name) case Some(c) => c case None => Default
  }

  datatype Config = Config(enabled: bool, create: U32, exec: U32, default: U32, teamMessage: U32) {
    function PerMinute(c: Category): U32 {
      match c
      case Create => create
      case Exec => exec
      case Default => default
      case TeamMessage => teamMessage
    }
  }

  function Burst(c: Category): U32 {
    match c
    case Create => 3
    case Exec => 10
    case Default => 20
    case TeamMessage => 50
  }

  function InitialBucket(config: Config, c: Category, now: real): Bucket {
    NewBucket(Burst(c), config.PerMinute(c), now)
  }

  /** The error message names the category asked for and the limit of the bucket it is routed to. */
  datatype Refusal = Refusal(name: string, limit: int)

  datatype Limits = Limits(enabled: bool, buckets: map<Category, Bucket>)

  ghost predicate WellFormed(l: Limits) { l.buckets.Keys == ALL }

  function InitialLimits(config: Config, now: real): Limits {
    Limits(config.enabled, map c | c in ALL :: InitialBucket(config, c, now))
  }

  function Check(l: Limits, name: string, now: real): (Limits, Result<(), Refusal>)
    requires WellFormed(l)
  {
    if !l.enabled then (l, Ok(()))
    else
      var c := Route(name);
      var (b, ok) := Acquire(l.buckets[c], now);
      (l.(buckets := l.buckets[c := b]),
       if ok then Ok(()) else Err(Refusal(name, (b.refillRate * 60.0 + 0.5).Floor)))
  }

  class RateLimiter {
    const enabled: bool
    const buckets: map<Category, TokenBucket>

    /** Each of the four categories has a bucket of its own. */
    ghost predicate Valid() {
      && buckets.Keys == ALL
      && forall c, d :: c in buckets && d in buckets && c != d ==> buckets[c] != buckets[d]
    }

    ghost function View(): Limits
      reads buckets.Values
    {
      Limits(enabled, map c | c in buckets :: buckets[c].View())
    }

    constructor (config: Config, now: real)
      ensures Valid() && fresh(buckets.Values)
      ensures View() == InitialLimits(config, now)
    {
      hide NewBucket;
      var create := new TokenBucket(3, config.create, now);
      var exec := new TokenBucket(10, config.exec, now);
      var default := new TokenBucket(20, config.default, now);
      var teamMessage := new TokenBucket(50, config.teamMessage, now);
      enabled := config.enabled;
      buckets := map[Create := create, Exec := exec, Default := default, TeamMessage := teamMessage];
      new;
      assert buckets.Keys == ALL;
    }

    method CheckCategory(name: string, now: real) returns (res: Result<(), Refusal>)
      requires Valid()
      modifies buckets.Values
      ensures (View(), res) == Check(old(View()), name, now)
    {
      hide Take, Gain;
      if !enabled {
        return Ok(());
      }
      var bucket := match Known(name) case Some(c) => buckets[c] case None => buckets[Default];
      var ok := bucket.TryAcquire(now);
      if ok {
        res := Ok(());
      } else {
        res := Err(Refusal(name, (bucket.refillRate * 60.0 + 0.5).Floor));
      }
      assert View().buckets == Check(old(View()), name, now).0.buckets;
    }
  }

  // ---- Runs of the limiter ----

  datatype Call = Call(name: string, time: real)

  function LimitsAfter(config: Config, start: real, calls: seq<Call>, n: nat): (l: Limits)
    requires n <= |calls|
    ensures WellFormed(l)
  {
    if n == 0 then InitialLimits(config, start)
    else Check(LimitsAfter(config, start, calls, n - 1), calls[n - 1].name, calls[n - 1].time).0
  }

  function Outcome(config: Config, start: real, calls: seq<Call>, i: nat): Result<(), Refusal>
    requires i < |calls|
  {
    Check(LimitsAfter(config, start, calls, i), calls[i].name, calls[i].time).1
  }

  /** Of the first `n` calls, those routed to bucket `c` at or after time `from` that succeed. */
  function Successes(config: Config, start: real, calls: seq<Call>, c: Category, from: real, n: nat): nat
    requires n <= |calls|
  {
    if n == 0 then 0
    else
      Successes(config, start, calls, c, from, n - 1) +
      if Route(calls[n - 1].name) == c && calls[n - 1].time >= from && Outcome(config, start, calls, n - 1).Ok?
      then 1 else 0
  }

  /** The times of the calls among the first `n` that are routed to bucket `c`. */
  function Routed(calls: seq<Call>, c: Category, n: nat): seq<real>
    requires n <= |calls|
  {
    if n == 0 then []
    else Routed(calls, c, n - 1) + if Route(calls[n - 1].name) == c then [calls[n - 1].time] else []
  }

  ghost predicate Clocked(start: real, calls: seq<Call>) {
    && (forall i :: 0 <= i < |calls| ==> start <= calls[i].time)
    && (forall i, j :: 0 <= i <= j < |calls| ==> calls[i].time <= calls[j].time)
  }

  lemma {:induction false} RoutedIsSorted(calls: seq<Call>, c: Category, n: nat, start: real)
    requires n <= |calls| && Clocked(start, calls)
    ensures var ts := Routed(calls, c, n);
            Sorted(ts) && forall t | t in ts :: n > 0 && start <= t <= calls[n - 1].time
  {
    if n > 0 {
      RoutedIsSorted(calls, c, n - 1, start);
      var ts := Routed(calls, c, n - 1);
      var ts' := Routed(calls, c, n);
      assert n > 1 ==> calls[n - 2].time <= calls[n - 1].time;
      if Route(calls[n - 1].name) == c {
        assert ts' == ts + [calls[n - 1].time];
        assert forall i | 0 <= i < |ts| :: ts[i] in ts;
      } else {
        assert ts' == ts;
      }
    }
  }

  lemma RoutedIsFresh(config: Config, calls: seq<Call>, c: Category, n: nat, start: real)
    requires n <= |calls| && Clocked(start, calls)
    ensures FreshBefore(InitialBucket(config, c, start), Routed(calls, c, n))
  {
    RoutedIsSorted(calls, c, n, start);
    var ts := Routed(calls, c, n);
    assert forall i :: 0 <= i < |ts| ==> ts[i] in ts;
  }

  lemma {:induction false} AfterExtends(b: Bucket, ts: seq<real>, more: seq<real>, from: real, n: nat)
    requires n <= |ts|
    ensures After(b, ts + more, n) == After(b, ts, n)
    ensures CountSince(b, ts + more, from, n) == CountSince(b, ts, from, n)
  {
    if n > 0 {
      AfterExtends(b, ts, more, from, n - 1);
    }
  }

  lemma RoutedStep(b: Bucket, ts: seq<real>, t: real, from: real)
    ensures var (a, ok) := Acquire(After(b, ts, |ts|), t);
            && After(b, ts + [t], |ts| + 1) == a
            && CountSince(b, ts + [t], from, |ts| + 1) ==
               CountSince(b, ts, from, |ts|) + if t >= from && ok then 1 else 0
  {
    AfterExtends(b, ts, [t], from, |ts|);
  }

  lemma LimitsStep(config: Config, start: real, calls: seq<Call>, c: Category, n: nat)
    requires n < |calls| && LimitsAfter(config, start, calls, n).enabled
    ensures var l := LimitsAfter(config, start, calls, n);
            var (b, ok) := Acquire(l.buckets[c], calls[n].time);
            && LimitsAfter(config, start, calls, n + 1).enabled
            && LimitsAfter(config, start, calls, n + 1).buckets[c] ==
               (if Route(calls[n].name) == c then b else l.buckets[c])
            && (Route(calls[n].name) == c ==> (Outcome(config, start, calls, n).Ok? <==> ok))
  {
  }

  /** Each bucket evolves as if the calls routed to it were the only ones. */
  lemma {:induction false} BucketsAreIndependent(
      config: Config, start: real, calls: seq<Call>, c: Category, from: real, n: nat)
    requires config.enabled && n <= |calls|
    ensures var ts := Routed(calls, c, n);
            var b := InitialBucket(config, c, start);
            && LimitsAfter(config, start, calls, n).enabled
            && LimitsAfter(config, start, calls, n).buckets[c] == After(b, ts, |ts|)
            && Successes(config, start, calls, c, from, n) == CountSince(b, ts, from, |ts|)
  {
    hide LimitsAfter, After, Successes, CountSince, InitialBucket, Route, Outcome, Acquire;
    if n == 0 {
      NothingRouted(config, start, calls, c, from);
    } else {
      BucketsAreIndependent(config, start, calls, c, from, n - 1);
      LimitsStep(config, start, calls, c, n - 1);
      SuccessesStep(config, start, calls, c, from, n);
      var ts := Routed(calls, c, n - 1);
      if Route(calls[n - 1].name) == c {
        RoutedStep(InitialBucket(config, c, start), ts, calls[n - 1].time, from);
      } else {
        assert Routed(calls, c, n) == ts;
      }
    }
  }

  lemma NothingRouted(config: Config, start: real, calls: seq<Call>, c: Category, from: real)
    ensures LimitsAfter(config, start, calls, 0).buckets[c] == After(InitialBucket(config, c, start), [], 0)
    ensures config.enabled ==> LimitsAfter(config, start, calls, 0).enabled
    ensures Routed(calls, c, 0) == [] && Successes(config, start, calls, c, from, 0) == 0
    ensures CountSince(InitialBucket(config, c, start), [], from, 0) == 0
  {
    hide InitialBucket;
  }

  lemma SuccessesStep(config: Config, start: real, calls: seq<Call>, c: Category, from: real, n: nat)
    requires 0 < n <= |calls|
    ensures Successes(config, start, calls, c, from, n) ==
            Successes(config, start, calls, c, from, n - 1) +
            if Route(calls[n - 1].name) == c && calls[n - 1].time >= from && Outcome(config, start, calls, n - 1).Ok?
            then 1 else 0
  {
  }

  /** Admitting call `i` would put more than burst + rate * length calls of its bucket into the
      window that starts at `from` and ends now. */
  ghost predicate CallWouldOverfill(config: Config, start: real, calls: seq<Call>, from: real, i: nat)
    requires i < |calls|
  {
    var c := Route(calls[i].name);
    && from <= calls[i].time
    && Successes(config, start, calls, c, from, i) as real + 1.0
       > Allowance(InitialBucket(config, c, start), calls[i].time - from)
  }

  /** A call through the limiter is refused exactly when the limiter is enabled and the call
      would overfill some window of its bucket; the message then quotes the configured limit. */
  lemma CallRefusedExactly(config: Config, start: real, calls: seq<Call>, i: nat)
    requires Clocked(start, calls) && i < |calls|
    ensures Outcome(config, start, calls, i).Err? <==>
            config.enabled && exists from :: CallWouldOverfill(config, start, calls, from, i)
    ensures Outcome(config, start, calls, i).Err? ==>
              Outcome(config, start, calls, i).error == Refusal(calls[i].name, config.PerMinute(Route(calls[i].name)))
  {
    if config.enabled {
      EnabledCallRefusedExactly(config, start, calls, i);
      RefusalQuotesLimit(config, start, calls, i);
    } else {
      DisabledStays(config, start, calls, i);
    }
  }

  /** The calls of the bucket that call `i` is routed to, up to and with that call. */
  function CallsOfItsBucket(calls: seq<Call>, i: nat): seq<real>
    requires i < |calls|
  {
    Routed(calls, Route(calls[i].name), i) + [calls[i].time]
  }

  function ItsBucket(config: Config, start: real, calls: seq<Call>, i: nat): Bucket
    requires i < |calls|
  {
    InitialBucket(config, Route(calls[i].name), start)
  }

  lemma CallsAreFresh(config: Config, start: real, calls: seq<Call>, i: nat)
    requires Clocked(start, calls) && i < |calls|
    ensures FreshBefore(ItsBucket(config, start, calls, i), CallsOfItsBucket(calls, i))
  {
    hide FreshBefore, Route, InitialBucket, Clocked;
    var c := Route(calls[i].name);
    assert Routed(calls, c, i + 1) == CallsOfItsBucket(calls, i);
    RoutedIsFresh(config, calls, c, i + 1, start);
  }

  /** Call `i` fares as in its bucket, alone among the calls routed there. */
  lemma OutcomeIsAdmission(config: Config, start: real, calls: seq<Call>, i: nat)
    requires i < |calls| && config.enabled
    ensures var b, ts := ItsBucket(config, start, calls, i), CallsOfItsBucket(calls, i);
            Outcome(config, start, calls, i).Ok? <==> Admits(b, ts, |ts| - 1)
  {
    hide Acquire, InitialBucket, Route, Outcome, Check, After, LimitsAfter, Successes, CountSince, Routed;
    var c, now := Route(calls[i].name), calls[i].time;
    var b, ts := ItsBucket(config, start, calls, i), Routed(calls, c, i);
    BucketsAreIndependent(config, start, calls, c, now, i);
    AfterExtends(b, ts, [now], now, |ts|);
    LimitsStep(config, start, calls, c, i);
  }

  lemma OverfillIsOverfill(config: Config, start: real, calls: seq<Call>, from: real, i: nat)
    requires i < |calls| && config.enabled
    ensures var b, ts := ItsBucket(config, start, calls, i), CallsOfItsBucket(calls, i);
            WouldOverfill(b, ts, from, |ts| - 1) <==> CallWouldOverfill(config, start, calls, from, i)
  {
    hide InitialBucket, Route, After, LimitsAfter, Successes, CountSince, Routed, Allowance;
    var c, now := Route(calls[i].name), calls[i].time;
    var b, ts := ItsBucket(config, start, calls, i), Routed(calls, c, i);
    BucketsAreIndependent(config, start, calls, c, from, i);
    AfterExtends(b, ts, [now], from, |ts|);
  }

  lemma EnabledCallRefusedExactly(config: Config, start: real, calls: seq<Call>, i: nat)
    requires Clocked(start, calls) && i < |calls| && config.enabled
    ensures Outcome(config, start, calls, i).Err? <==> exists from :: CallWouldOverfill(config, start, calls, from, i)
  {
    hide Outcome, CallWouldOverfill, WouldOverfill, FreshBefore, Admits, CallsOfItsBucket, ItsBucket, Clocked;
    var b, ts := ItsBucket(config, start, calls, i), CallsOfItsBucket(calls, i);
    CallsAreFresh(config, start, calls, i);
    SomeCalls(calls, i);
    var last: nat := |ts| - 1;
    OutcomeIsAdmission(config, start, calls, i);
    RefusedExactly(b, ts, last);
    if from :| WouldOverfill(b, ts, from, last) {
      OverfillIsOverfill(config, start, calls, from, i);
    }
    if from :| CallWouldOverfill(config, start, calls, from, i) {
      OverfillIsOverfill(config, start, calls, from, i);
    }
  }

  lemma SomeCalls(calls: seq<Call>, i: nat)
    requires i < |calls|
    ensures |CallsOfItsBucket(calls, i)| > 0
  {
  }

  lemma RefusalQuotesLimit(config: Config, start: real, calls: seq<Call>, i: nat)
    requires Clocked(start, calls) && i < |calls| && config.enabled
    ensures Outcome(config, start, calls, i).Err? ==>
              Outcome(config, start, calls, i).error == Refusal(calls[i].name, config.PerMinute(Route(calls[i].name)))
  {
    hide Take, Gain, Routed, LimitsAfter;
    var c := Route(calls[i].name);
    BucketsAreIndependent(config, start, calls, c, start, i);
    KeepsRate(InitialBucket(config, c, start), Routed(calls, c, i), |Routed(calls, c, i)|);
    LimitIsConfigured(config.PerMinute(c));
  }

  lemma {:induction false} KeepsRate(b: Bucket, times: seq<real>, n: nat)
    requires n <= |times|
    ensures After(b, times, n).refillRate == b.refillRate
  {
    hide Take, Gain;
    if n > 0 {
      KeepsRate(b, times, n - 1);
    }
  }

  lemma LimitIsConfigured(perMinute: U32)
    ensures (perMinute as real / 60.0 * 60.0 + 0.5).Floor == perMinute
  {
  }

  lemma {:induction false} DisabledStays(config: Config, start: real, calls: seq<Call>, n: nat)
    requires !config.enabled && n <= |calls|
    ensures !LimitsAfter(config, start, calls, n).enabled
  {
    if n > 0 {
      DisabledStays(config, start, calls, n - 1);
    }
  }

  /** Over any interleaving of categories, no window of an enabled limiter contains more
      successful calls of one bucket than its burst plus its rate times the window's length. */
  lemma CategoryWindowBound(config: Config, start: real, calls: seq<Call>, c: Category, from: real, to: real, n: nat)
    requires config.enabled && Clocked(start, calls) && n <= |calls| && from <= to
    requires forall i :: 0 <= i < n ==> calls[i].time <= to
    ensures Successes(config, start, calls, c, from, n) as real
              <= Allowance(InitialBucket(config, c, start), to - from)
  {
    hide Gain, Take, Allowance;
    RoutedIsFresh(config, calls, c, n, start);
    RoutedIsSorted(calls, c, n, start);
    BucketsAreIndependent(config, start, calls, c, from, n);
    var ts := Routed(calls, c, n);
    assert forall i :: 0 <= i < |ts| ==> ts[i] in ts;
    WindowBound(InitialBucket(config, c, start), ts, from, to, |ts|);
  }
}
