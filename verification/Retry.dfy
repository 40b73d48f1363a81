/** The retry loop of provider.go: how often, and after how long. Durations are exact seconds. */
module Retry {
  import opened Prelude
  import opened Errors

  // ---- the configuration ----

  datatype Config = Config(maxRetries: int, initial: real, max: real, multiplier: real)

  const DEFAULTS := Config(3, 0.5, 5.0, 2.0)

  function Normalize(c: Config): (n: Config)
    ensures Normal(n)
    ensures Normal(c) ==> n == c
    ensures n.maxRetries == if c.maxRetries >= 0 then c.maxRetries else 0
    ensures c.initial > 0.0 ==> n.initial == c.initial
    ensures c.max > 0.0 ==> n.max == c.max
    ensures c.multiplier >= 1.0 ==> n.multiplier == c.multiplier
    ensures c.initial <= 0.0 ==> n.initial == 0.5
    ensures c.max <= 0.0 ==> n.max == 5.0
    ensures c.multiplier < 1.0 ==> n.multiplier == 2.0
  {
    Config(
      if c.maxRetries < 0 then 0 else c.maxRetries,
      if c.initial <= 0.0 then DEFAULTS.initial else c.initial,
      if c.max <= 0.0 then DEFAULTS.max else c.max,
      if c.multiplier < 1.0 then DEFAULTS.multiplier else c.multiplier)
  }

  predicate Normal(c: Config) {
    c.maxRetries >= 0 && c.initial > 0.0 && c.max > 0.0 && c.multiplier >= 1.0
  }

  function Next(c: Config, interval: real): real {
    if interval * c.multiplier > c.max then c.max else interval * c.multiplier
  }

  // ---- the loop ----

  datatype Outcome = Success | Failure(error: Error)

  /** What the world does in one turn of the loop. */
  datatype Turn = Turn(doneBefore: bool, outcome: Outcome, doneWaiting: bool)

  datatype Ending = Succeeded | Failed(error: Error) | Interrupted(last: Option<Error>)

  /** How often the function was called, which timers were started, and what came of it. */
  datatype Report = Report(calls: nat, waits: seq<real>, ending: Ending)

  predicate Stops(o: Outcome) {
    o.Success? || !IsRetryable(o.error)
  }

  function WaitAfter(e: Error, interval: real): real {
    match Hint(e) case Some(d) => d case None => interval
  }

  /** The loop from turn `i` on. */
  function Attempts(c: Config, world: nat -> Turn, i: nat, interval: real, last: Option<Error>, calls: nat,
          waits: seq<real>): Report
    requires Normal(c)
    decreases c.maxRetries + 1 - i
  {
    if i > c.maxRetries then Report(calls, waits, if last.Some? then Failed(last.value) else Interrupted(None))
    else if world(i).doneBefore then Report(calls, waits, Interrupted(last))
    else
      match world(i).outcome
      case Success => Report(calls + 1, waits, Succeeded)
      case Failure(e) =>
        if !IsRetryable(e) || i == c.maxRetries then Report(calls + 1, waits, Failed(e))
        else
          var started := waits + [WaitAfter(e, interval)];
          if world(i).doneWaiting then Report(calls + 1, started, Interrupted(Some(e)))
          else Attempts(c, world, i + 1, Next(c, interval), Some(e), calls + 1, started)
  }

  function Run(config: Config, world: nat -> Turn): Report {
    var c := Normalize(config);
    Attempts(c, world, 0, c.initial, None, 0, [])
  }

  method Retry(config: Config, world: nat -> Turn) returns (report: Report)
    ensures report == Run(config, world)
  {
    var c := Normalize(config);
    var calls, waits := 0, [];
    var last: Option<Error> := None;
    var interval := c.initial;
    var i := 0;
    while i <= c.maxRetries
      invariant 0 <= i <= c.maxRetries + 1
      invariant last.None? <==> i == 0
      invariant Attempts(c, world, i, interval, last, calls, waits) == Run(config, world)
    {
      if world(i).doneBefore {
        return Report(calls, waits, Interrupted(last));
      }
      var outcome := world(i).outcome;
      calls := calls + 1;
      if outcome.Success? {
        return Report(calls, waits, Succeeded);
      }
      last := Some(outcome.error);
      if !IsRetryable(outcome.error) {
        return Report(calls, waits, Failed(outcome.error));
      }
      if i == c.maxRetries {
        break;
      }
      waits := waits + [WaitAfter(outcome.error, interval)];
      if world(i).doneWaiting {
        return Report(calls, waits, Interrupted(last));
      }
      ghost var before := interval;
      interval := interval * c.multiplier;
      if interval > c.max {
        interval := c.max;
      }
      assert interval == Next(c, before);
      i := i + 1;
    }
    return Report(calls, waits, Failed(last.value));
  }

  /** The error the loop returns; an interruption joins the context's error and the last failure. */
  function Returned(e: Ending): Option<Error> {
    match e
    case Succeeded => None
    case Failed(error) => Some(error)
    case Interrupted(None) => Some(Joined([ContextDone]))
    case Interrupted(Some(last)) => Some(Joined([ContextDone, last]))
  }

  /** Whatever the last failure says, an interrupted loop is not tried again. */
  lemma InterruptionIsFinal(last: Option<Error>)
    ensures !IsRetryable(Returned(Interrupted(last)).value)
  {
    var e := Returned(Interrupted(last)).value;
    assert e.causes[0] == ContextDone && IsContextDone(e.causes[0]);
  }

  // ---- how often ----

  ghost predicate Live(world: nat -> Turn) {
    forall i :: !world(i).doneBefore && !world(i).doneWaiting
  }

  /** Every turn before `n` failed in a way worth retrying. */
  ghost predicate KeptFailing(world: nat -> Turn, n: nat) {
    forall i: nat :: i < n ==> !Stops(world(i).outcome)
  }

  /** With a live context the last call is the first that settles the matter, or the last one allowed. */
  lemma {:induction false} CallsExactly(c: Config, world: nat -> Turn, i: nat, interval: real, last: Option<Error>,
          waits: seq<real>) returns (n: nat)
    requires Normal(c) && Live(world) && i <= c.maxRetries
    requires KeptFailing(world, i)
    ensures i <= n <= c.maxRetries && KeptFailing(world, n)
    ensures n == c.maxRetries || Stops(world(n).outcome)
    ensures
      var r := Attempts(c, world, i, interval, last, i, waits);
      && r.calls == n + 1
      && |r.waits| == |waits| + (n - i)
      && r.ending == if world(n).outcome.Success? then Succeeded else Failed(world(n).outcome.error)
    decreases c.maxRetries - i
  {
    var o := world(i).outcome;
    if Stops(o) || i == c.maxRetries {
      n := i;
    } else {
      n := CallsExactly(c, world, i + 1, Next(c, interval), Some(o.error), waits + [WaitAfter(o.error, interval)]);
    }
  }

  /** `Retry` calls up to the first success or permanent failure, but at most `MaxRetries + 1` times. */
  lemma CallCount(config: Config, world: nat -> Turn) returns (n: nat)
    requires Live(world)
    ensures n <= Normalize(config).maxRetries && KeptFailing(world, n)
    ensures n == Normalize(config).maxRetries || Stops(world(n).outcome)
    ensures Run(config, world).calls == n + 1 && |Run(config, world).waits| == n
    ensures Run(config, world).ending == if world(n).outcome.Success? then Succeeded else Failed(world(n).outcome.error)
  {
    var c := Normalize(config);
    n := CallsExactly(c, world, 0, c.initial, None, []);
  }

  /** Whatever the context does, no call follows an interruption, a success or a permanent failure. */
  lemma {:induction false} NeverTooMany(c: Config, world: nat -> Turn, i: nat, interval: real, last: Option<Error>,
          waits: seq<real>)
    requires Normal(c) && i <= c.maxRetries
    ensures
      var r := Attempts(c, world, i, interval, last, i, waits);
      && i <= r.calls <= c.maxRetries + 1
      && |waits| <= |r.waits| <= |waits| + (r.calls - i)
      && (forall k: nat :: i <= k < r.calls ==> !world(k).doneBefore)
      && (forall k: nat :: i <= k < r.calls - 1 ==> !world(k).doneWaiting && !Stops(world(k).outcome))
      && (r.ending.Interrupted? ==> Interrupting(world, i, r.calls))
    decreases c.maxRetries - i
  {
    var t := world(i);
    if t.doneBefore || Stops(t.outcome) || i == c.maxRetries || t.doneWaiting {
    } else {
      NeverTooMany(c, world, i + 1, Next(c, interval), Some(t.outcome.error),
                   waits + [WaitAfter(t.outcome.error, interval)]);
    }
  }

  predicate Interrupting(world: nat -> Turn, from: nat, calls: nat) {
    world(calls).doneBefore || (calls > from && world(calls - 1).doneWaiting)
  }

  /** How the loop ends after its last call, or before its first. */
  ghost predicate EndsAs(c: Config, world: nat -> Turn, r: Report) {
    var n := r.calls;
    && (r.ending.Succeeded? ==> n > 0 && world(n - 1).outcome.Success? && |r.waits| == n - 1)
    && (r.ending.Failed? ==>
          && n > 0 && world(n - 1).outcome == Failure(r.ending.error) && |r.waits| == n - 1
          && (!IsRetryable(r.ending.error) || n == c.maxRetries + 1))
    && (r.ending.Interrupted? ==>
          && (world(n).doneBefore || (n > 0 && world(n - 1).doneWaiting)) && |r.waits| == n
          && (if n == 0 then r.ending.last == None
              else world(n - 1).outcome.Failure? && r.ending.last == Some(world(n - 1).outcome.error)
                   && IsRetryable(world(n - 1).outcome.error) && n <= c.maxRetries))
  }

  lemma {:induction false} EndingFrom(c: Config, world: nat -> Turn, i: nat, interval: real, last: Option<Error>,
          waits: seq<real>)
    requires Normal(c) && i <= c.maxRetries && |waits| == i
    requires i == 0 ==> last == None
    requires i > 0 ==>
      && world(i - 1).outcome.Failure? && last == Some(world(i - 1).outcome.error)
      && IsRetryable(world(i - 1).outcome.error)
    ensures EndsAs(c, world, Attempts(c, world, i, interval, last, i, waits))
    decreases c.maxRetries - i
  {
    var t := world(i);
    if t.doneBefore || Stops(t.outcome) || i == c.maxRetries || t.doneWaiting {
    } else {
      EndingFrom(c, world, i + 1, Next(c, interval), Some(t.outcome.error),
                 waits + [WaitAfter(t.outcome.error, interval)]);
    }
  }

  /**
   * Whatever the context does, the ending is that of the last call: success,
   * a failure that is permanent or used up the last retry, or an interruption
   * that hands on the failure after which it came.
   */
  lemma EndingIs(config: Config, world: nat -> Turn)
    ensures EndsAs(Normalize(config), world, Run(config, world))
  {
    var c := Normalize(config);
    EndingFrom(c, world, 0, c.initial, None, []);
  }

  // ---- how long ----

  function Power(x: real, n: nat): real {
    if n == 0 then 1.0 else x * Power(x, n - 1)
  }

  function Least(a: real, b: real): real {
    if a <= b then a else b
  }

  /** The computed wait before retry `i`, counted from 0. The first one is not capped. */
  function Backoff(c: Config, i: nat): real {
    if i == 0 then c.initial else Least(c.initial * Power(c.multiplier, i), c.max)
  }

  lemma BackoffStep(c: Config, i: nat)
    requires Normal(c)
    ensures Next(c, Backoff(c, i)) == Backoff(c, i + 1)
  {
    var a := c.initial * Power(c.multiplier, i);
    assert c.initial * Power(c.multiplier, i + 1) == a * c.multiplier;
    if i == 0 {
      assert Power(c.multiplier, 0) == 1.0;
    } else if a <= c.max {
    } else {
      Grows(a, c.multiplier);
      Grows(c.max, c.multiplier);
    }
  }

  lemma NextGrows(c: Config, x: real)
    requires Normal(c) && 0.0 < x <= c.max
    ensures x <= Next(c, x)
  {
    Grows(x, c.multiplier);
  }

  lemma Grows(x: real, m: real)
    requires x > 0.0 && m >= 1.0
    ensures x * m >= x
  {
  }

  /** A wait is the server's hint if there is one, and the closed form otherwise. */
  ghost predicate WaitIs(c: Config, world: nat -> Turn, k: nat, wait: real) {
    && world(k).outcome.Failure?
    && wait == match Asked(world(k).outcome.error) case Some(d) => d case None => Backoff(c, k)
  }

  /** The delay a server asked for: that of the first error in the tree to carry one, if it is positive. */
  function Asked(e: Error): Option<real> {
    match FirstAsks(Notes(e))
    case None => None
    case Some(d) => if d > 0.0 then Some(d) else None
  }

  lemma AskedIsTheHint(e: Error)
    ensures Hint(e) == Asked(e)
  {
    SearchesRead(e);
  }

  ghost predicate WaitsAre(c: Config, world: nat -> Turn, waits: seq<real>) {
    forall k :: 0 <= k < |waits| ==> WaitIs(c, world, k, waits[k])
  }

  lemma {:induction false} WaitsFrom(c: Config, world: nat -> Turn, i: nat, interval: real, last: Option<Error>,
          waits: seq<real>)
    requires Normal(c) && i <= c.maxRetries && |waits| == i && interval == Backoff(c, i)
    requires WaitsAre(c, world, waits)
    ensures WaitsAre(c, world, Attempts(c, world, i, interval, last, i, waits).waits)
    decreases c.maxRetries - i
  {
    var t := world(i);
    if t.doneBefore || Stops(t.outcome) || i == c.maxRetries {
    } else {
      var started := waits + [WaitAfter(t.outcome.error, interval)];
      AskedIsTheHint(t.outcome.error);
      assert WaitIs(c, world, i, started[i]);
      assert WaitsAre(c, world, started);
      if t.doneWaiting {
      } else {
        BackoffStep(c, i);
        WaitsFrom(c, world, i + 1, Next(c, interval), Some(t.outcome.error), started);
      }
    }
  }

  lemma Waits(config: Config, world: nat -> Turn)
    ensures WaitsAre(Normalize(config), world, Run(config, world).waits)
  {
    var c := Normalize(config);
    assert Backoff(c, 0) == c.initial;
    WaitsFrom(c, world, 0, c.initial, None, []);
  }

  /** No wait is ever without length: neither a computed one nor one that was asked for. */
  lemma WaitsArePositive(config: Config, world: nat -> Turn)
    ensures forall k :: 0 <= k < |Run(config, world).waits| ==> Run(config, world).waits[k] > 0.0
  {
    var c, waits := Normalize(config), Run(config, world).waits;
    Waits(config, world);
    forall k | 0 <= k < |waits| ensures waits[k] > 0.0 {
      assert WaitIs(c, world, k, waits[k]);
      BackoffBound(c, k);
    }
  }

  predicate Unhinted(world: nat -> Turn, k: nat) {
    world(k).outcome.Failure? ==> Asked(world(k).outcome.error).None?
  }

  /** No computed wait passes the cap, exactly when the first is within it, or there is none, or a server set it. */
  lemma WaitsWithinCap(config: Config, world: nat -> Turn)
    ensures
      var c, waits := Normalize(config), Run(config, world).waits;
      (forall k :: 0 <= k < |waits| && Unhinted(world, k) ==> waits[k] <= c.max) <==>
        c.initial <= c.max || waits == [] || !Unhinted(world, 0)
  {
    var c, waits := Normalize(config), Run(config, world).waits;
    Waits(config, world);
    forall k | 0 <= k < |waits| && Unhinted(world, k)
      ensures waits[k] == Backoff(c, k) && (k > 0 || c.initial <= c.max ==> waits[k] <= c.max)
    {
      assert WaitIs(c, world, k, waits[k]);
      BackoffBound(c, k);
    }
    if waits != [] && Unhinted(world, 0) {
      assert waits[0] == c.initial;
    }
  }

  /** With a first wait past the cap the second is shorter. */
  lemma WaitsCanShrink()
    ensures
      var c := Config(3, 10.0, 5.0, 2.0);
      Normalize(c) == c && Backoff(c, 0) == 10.0 && Backoff(c, 1) == 5.0
  {
    var c := Config(3, 10.0, 5.0, 2.0);
    BackoffStep(c, 0);
  }

  /** The waits never shrink exactly when the first is within the cap. */
  lemma BackoffIsMonotone(c: Config)
    requires Normal(c)
    ensures (forall i: nat :: Backoff(c, i) <= Backoff(c, i + 1)) <==> c.initial <= c.max
  {
    if c.initial <= c.max {
      forall i: nat ensures Backoff(c, i) <= Backoff(c, i + 1) {
        BackoffStep(c, i);
        BackoffBound(c, i);
        NextGrows(c, Backoff(c, i));
      }
    } else {
      assert Backoff(c, 0) > c.max >= Backoff(c, 0 + 1);
    }
  }

  lemma {:induction false} BackoffBound(c: Config, i: nat)
    requires Normal(c)
    ensures 0.0 < Backoff(c, i)
    ensures i > 0 || c.initial <= c.max ==> Backoff(c, i) <= c.max
  {
    if i > 0 {
      BackoffBound(c, i - 1);
      BackoffStep(c, i - 1);
      Grows(Backoff(c, i - 1), c.multiplier);
    }
  }

  function Sum(xs: seq<real>): real {
    if xs == [] then 0.0 else Sum(xs[..|xs| - 1]) + xs[|xs| - 1]
  }

  ghost predicate NoHints(world: nat -> Turn) {
    forall i :: world(i).outcome.Failure? ==> Asked(world(i).outcome.error).None?
  }

  lemma UnhintedWait(c: Config, world: nat -> Turn, k: nat, wait: real)
    requires Normal(c) && NoHints(world) && WaitIs(c, world, k, wait)
    ensures if k == 0 then wait == c.initial else wait <= c.max
  {
    BackoffBound(c, k);
  }

  lemma {:induction false} SumBound(c: Config, world: nat -> Turn, waits: seq<real>)
    requires Normal(c) && NoHints(world) && WaitsAre(c, world, waits)
    ensures |waits| > 0 ==> Sum(waits) <= c.initial + Times(|waits| - 1, c.max)
    decreases |waits|
  {
    if |waits| > 0 {
      var k := |waits| - 1;
      var init := waits[..k];
      assert forall j :: 0 <= j < k ==> init[j] == waits[j];
      SumBound(c, world, init);
      assert WaitIs(c, world, k, waits[k]);
      UnhintedWait(c, world, k, waits[k]);
      if k == 0 {
        assert Sum(init) == 0.0 && Times(0, c.max) == 0.0;
      } else {
        OnceMore(k - 1, c.max);
      }
    }
  }

  lemma OnceMore(n: int, x: real)
    ensures Times(n + 1, x) == Times(n, x) + x
  {
  }

  function Times(n: int, x: real): real {
    n as real * x
  }

  /** Without hints the whole wait is bounded, whatever the context does. */
  lemma TotalWait(config: Config, world: nat -> Turn)
    requires NoHints(world)
    ensures
      var c := Normalize(config);
      Sum(Run(config, world).waits) <= if c.maxRetries == 0 then 0.0 else c.initial + Times(c.maxRetries - 1, c.max)
  {
    var c := Normalize(config);
    var waits := Run(config, world).waits;
    Waits(config, world);
    WaitCount(c, world);
    AtMost(c, world, waits);
  }

  lemma AtMost(c: Config, world: nat -> Turn, waits: seq<real>)
    requires Normal(c) && NoHints(world) && WaitsAre(c, world, waits) && |waits| <= c.maxRetries
    ensures Sum(waits) <= if c.maxRetries == 0 then 0.0 else c.initial + Times(c.maxRetries - 1, c.max)
  {
    SumBound(c, world, waits);
    if waits == [] {
      if c.maxRetries > 0 {
        Scale(0, c.maxRetries - 1, c.max);
      }
    } else {
      Scale(|waits| - 1, c.maxRetries - 1, c.max);
    }
  }

  /** There is no wait after the last call. */
  lemma WaitCount(c: Config, world: nat -> Turn)
    requires Normal(c)
    ensures |Attempts(c, world, 0, c.initial, None, 0, []).waits| <= c.maxRetries
  {
    WaitsAfter(c, world, 0, c.initial, None, 0, []);
  }

  lemma {:induction false} WaitsAfter(c: Config, world: nat -> Turn, i: nat, interval: real, last: Option<Error>,
          calls: nat, waits: seq<real>)
    requires Normal(c) && i <= c.maxRetries && |waits| <= i
    ensures |Attempts(c, world, i, interval, last, calls, waits).waits| <= c.maxRetries
    decreases c.maxRetries - i
  {
    var t := world(i);
    if t.doneBefore || Stops(t.outcome) || i == c.maxRetries {
    } else {
      var started := waits + [WaitAfter(t.outcome.error, interval)];
      if !t.doneWaiting {
        WaitsAfter(c, world, i + 1, Next(c, interval), Some(t.outcome.error), calls + 1, started);
      }
    }
  }

  lemma Scale(a: int, b: int, x: real)
    requires a <= b && x > 0.0
    ensures Times(a, x) <= Times(b, x)
  {
  }
}
