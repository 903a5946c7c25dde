/** The limiter of `RateLimit` told from outside, by the names callers use: which names share a
    bucket, how many calls pass at once, and what a refusal says. */
module RateLimitByName {
  import opened Prelude
  import opened RateLimit

  predicate Named(name: string) { name in {"create", "exec", "team_message"} }

  /** Two names draw on the same bucket; all other names, "default" included, share one. */
  predicate Shares(a: string, b: string) { a == b || (!Named(a) && !Named(b)) }

  /** Of the first `n` calls, the successful ones at or after time `from` that draw on the bucket of
      `name`. */
  function SharedSuccesses(config: Config, start: real, calls: seq<Call>, name: string, from: real, n: nat): nat
    requires n <= |calls|
  {
    if n == 0 then 0
    else
      SharedSuccesses(config, start, calls, name, from, n - 1) +
      if Shares(calls[n - 1].name, name) && calls[n - 1].time >= from && Outcome(config, start, calls, n - 1).Ok?
      then 1 else 0
  }

  lemma SharesIsRoute(a: string, b: string)
    ensures Shares(a, b) <==> Route(a) == Route(b)
  {
  }

  lemma {:induction false} SharedIsRouted(
      config: Config, start: real, calls: seq<Call>, name: string, from: real, n: nat)
    requires n <= |calls|
    ensures SharedSuccesses(config, start, calls, name, from, n) ==
            Successes(config, start, calls, Route(name), from, n)
  {
    hide Outcome, Route, Shares;
    if n > 0 {
      SharedIsRouted(config, start, calls, name, from, n - 1);
      SharesIsRoute(calls[n - 1].name, name);
    }
  }

  /** How many calls a window may hold: 3, 10, 50 or 20 and a sixtieth of the configured limit for
      each second of its length. */
  function Allowed(config: Config, name: string, length: real): real {
    if name == "create" then 3.0 + config.create as real / 60.0 * length
    else if name == "exec" then 10.0 + config.exec as real / 60.0 * length
    else if name == "team_message" then 50.0 + config.teamMessage as real / 60.0 * length
    else 20.0 + config.default as real / 60.0 * length
  }

  lemma AllowedByRoute(config: Config, name: string, start: real, length: real)
    ensures Allowance(InitialBucket(config, Route(name), start), length) == Allowed(config, name, length)
  {
  }

  /** Admitting call `i` would put more calls of its bucket than allowed into the window that starts
      at `from` and ends now. */
  ghost predicate Overfills(config: Config, start: real, calls: seq<Call>, from: real, i: nat)
    requires i < |calls|
  {
    && from <= calls[i].time
    && SharedSuccesses(config, start, calls, calls[i].name, from, i) as real + 1.0 >
       Allowed(config, calls[i].name, calls[i].time - from)
  }

  lemma OverfillsByRoute(config: Config, start: real, calls: seq<Call>, from: real, i: nat)
    requires i < |calls|
    ensures Overfills(config, start, calls, from, i) <==> CallWouldOverfill(config, start, calls, from, i)
  {
    hide Allowance, Allowed, InitialBucket, Route, SharedSuccesses, Successes;
    SharedIsRouted(config, start, calls, calls[i].name, from, i);
    AllowedByRoute(config, calls[i].name, start, calls[i].time - from);
  }

  lemma QuotedByRoute(config: Config, name: string)
    ensures config.PerMinute(Route(name)) ==
            if name == "create" then config.create
            else if name == "exec" then config.exec
            else if name == "team_message" then config.teamMessage
            else config.default
  {
  }

  /** A call is refused if and only if the limiter is enabled and the call would overfill some window
      ending now; the refusal names it and quotes the limit configured for it. */
  lemma RefusedExactlyByName(config: Config, start: real, calls: seq<Call>, i: nat)
    requires Clocked(start, calls) && i < |calls|
    ensures Outcome(config, start, calls, i).Err? <==>
            config.enabled && exists from :: Overfills(config, start, calls, from, i)
    ensures Outcome(config, start, calls, i).Err? ==>
              var name := calls[i].name;
              Outcome(config, start, calls, i).error ==
              Refusal(name, if name == "create" then config.create
                            else if name == "exec" then config.exec
                            else if name == "team_message" then config.teamMessage
                            else config.default)
  {
    hide Outcome, Overfills, CallWouldOverfill, Clocked;
    CallRefusedExactly(config, start, calls, i);
    QuotedByRoute(config, calls[i].name);
    if from :| Overfills(config, start, calls, from, i) {
      OverfillsByRoute(config, start, calls, from, i);
    }
    if from :| CallWouldOverfill(config, start, calls, from, i) {
      OverfillsByRoute(config, start, calls, from, i);
    }
  }

  // ---- Calls at one instant ----

  lemma FullAtFirst(config: Config, start: real, c: Category, now: real)
    requires start <= now
    ensures var b := InitialBucket(config, c, start);
            var (b', ok) := Acquire(b, now);
            && ok && b'.tokens == Burst(c) as real - 1.0 && b'.lastRefill == now && b'.maxTokens == Burst(c) as real
  {
    var b := InitialBucket(config, c, start);
    Earned(b.refillRate, start, now);
    assert Gain(b, now) >= 0.0;
    hide Gain;
  }

  lemma NothingGained(b: Bucket)
    ensures Gain(b, b.lastRefill) == 0.0
  {
  }

  lemma TakenAtOnce(b: Bucket, left: nat)
    requires b.tokens == left as real <= b.maxTokens
    ensures var (b', ok) := Acquire(b, b.lastRefill);
            && (ok <==> left > 0) && b'.tokens == (if left > 0 then left - 1 else 0) as real
            && b'.lastRefill == b.lastRefill && b'.maxTokens == b.maxTokens
  {
    NothingGained(b);
    hide Gain;
  }

  /** After `i` calls of one name at one instant its bucket holds what is left of its burst. */
  lemma {:induction false} BucketAtInstant(
      config: Config, start: real, calls: seq<Call>, name: string, now: real, i: nat)
    requires config.enabled && start <= now && 0 < i <= |calls|
    requires forall j :: 0 <= j < i ==> calls[j] == Call(name, now)
    ensures var l, burst := LimitsAfter(config, start, calls, i), Burst(Route(name));
            var b := l.buckets[Route(name)];
            && l.enabled && b.lastRefill == now && b.maxTokens == burst as real
            && b.tokens == (if i < burst then burst - i else 0) as real
    ensures Outcome(config, start, calls, i - 1).Ok? <==> i <= Burst(Route(name))
  {
    hide Acquire, InitialBucket, Route;
    var c := Route(name);
    if i == 1 {
      assert LimitsAfter(config, start, calls, 0) == InitialLimits(config, start);
      FullAtFirst(config, start, c, now);
      LimitsStep(config, start, calls, c, 0);
    } else {
      BucketAtInstant(config, start, calls, name, now, i - 1);
      var b, burst := LimitsAfter(config, start, calls, i - 1).buckets[c], Burst(c);
      TakenAtOnce(b, if i - 1 < burst then burst - (i - 1) else 0);
      LimitsStep(config, start, calls, c, i - 1);
    }
  }

  /** Of calls of one name at one instant to a fresh enabled limiter exactly the first 3 succeed for
      "create", 10 for "exec", 50 for "team_message", and 20 for every other name. */
  lemma BurstExactly(config: Config, start: real, calls: seq<Call>, name: string, now: real, i: nat)
    requires config.enabled && start <= now && i < |calls|
    requires forall j :: 0 <= j <= i ==> calls[j] == Call(name, now)
    ensures Outcome(config, start, calls, i).Ok? <==>
            i < (if name == "create" then 3
                 else if name == "exec" then 10
                 else if name == "team_message" then 50
                 else 20)
  {
    BucketAtInstant(config, start, calls, name, now, i + 1);
  }
}
