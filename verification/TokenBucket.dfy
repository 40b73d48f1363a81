/**
 * The token bucket of compose.go. Tokens are counted in nanoseconds of credit
 * (tokens times the interval), so that every sum is exact.
 */
module TokenBucket {
  import opened Prelude

  datatype Config = Config(interval: int, burst: int)

  function Normalize(interval: int, burst: int): Config {
    Config(if interval < 0 then 0 else interval, if burst < 1 then 1 else burst)
  }

  predicate Proper(c: Config) {
    c.interval >= 0 && c.burst >= 1
  }

  datatype State = State(credit: int, last: int)

  datatype Answer = Granted | Refused(delay: int)

  function Full(c: Config): int {
    c.burst * c.interval
  }

  ghost predicate Inv(c: Config, s: State) {
    0 <= s.credit <= Full(c)
  }

  // ---- one call ----

  /** A clock that stood still or went back adds nothing. */
  function Refill(c: Config, s: State, now: int): State {
    if now > s.last then State(Min(s.credit + (now - s.last), Full(c)), now) else s
  }

  function Take(c: Config, s: State, now: int): (State, Answer) {
    if c.interval <= 0 then (s, Granted)
    else
      var t := Refill(c, s, now);
      if t.credit >= c.interval then (t.(credit := t.credit - c.interval), Granted)
      else (t, Refused(c.interval - t.credit))
  }

  /** What a refill throws away because the bucket is full. */
  function Spilled(c: Config, s: State, now: int): int {
    if c.interval > 0 && now > s.last && s.credit + (now - s.last) > Full(c)
    then s.credit + (now - s.last) - Full(c)
    else 0
  }

  function Cost(c: Config, s: State, now: int): int {
    if Take(c, s, now).1.Granted? then c.interval else 0
  }

  lemma FullHoldsAToken(c: Config)
    requires Proper(c)
    ensures Full(c) >= c.interval
  {
  }

  // ---- runs of calls ----

  function After(c: Config, s: State, readings: seq<int>): State
    decreases |readings|
  {
    if readings == [] then s else After(c, Take(c, s, readings[0]).0, readings[1..])
  }

  function Grants(c: Config, s: State, readings: seq<int>): nat
    decreases |readings|
  {
    if readings == [] then 0
    else
      var (t, answer) := Take(c, s, readings[0]);
      (if answer.Granted? then 1 else 0) + Grants(c, t, readings[1..])
  }

  function Lost(c: Config, s: State, readings: seq<int>): int
    decreases |readings|
  {
    if readings == [] then 0
    else Spilled(c, s, readings[0]) + Lost(c, Take(c, s, readings[0]).0, readings[1..])
  }

  lemma {:induction false} InvAlong(c: Config, s: State, readings: seq<int>)
    requires Proper(c) && Inv(c, s)
    ensures Inv(c, After(c, s, readings)) && Lost(c, s, readings) >= 0
    ensures s.last <= After(c, s, readings).last
    decreases |readings|
  {
    if readings != [] {
      FullHoldsAToken(c);
      InvAlong(c, Take(c, s, readings[0]).0, readings[1..]);
    }
  }

  /** Credit is only earned by time and only spent on grants, or spilled from a full bucket. */
  lemma {:induction false} CreditIsConserved(c: Config, s: State, readings: seq<int>)
    requires c.interval > 0
    ensures
      var t := After(c, s, readings);
      t.credit + Grants(c, s, readings) * c.interval + Lost(c, s, readings) == s.credit + (t.last - s.last)
    decreases |readings|
  {
    if readings == [] {
    } else {
      CreditIsConserved(c, Take(c, s, readings[0]).0, readings[1..]);
      Distribute(Cost(c, s, readings[0]), c.interval, Grants(c, Take(c, s, readings[0]).0, readings[1..]));
    }
  }

  lemma Distribute(cost: int, interval: int, grants: nat)
    requires cost == 0 || cost == interval
    ensures cost == interval ==> (1 + grants) * interval == cost + grants * interval
    ensures cost == 0 ==> (0 + grants) * interval == cost + grants * interval
  {
  }

  /** Over any run, whatever the clock does, grants keep to the rate. */
  lemma RateBound(c: Config, s: State, readings: seq<int>)
    requires Proper(c) && c.interval > 0 && Inv(c, s)
    ensures
      var t := After(c, s, readings);
      && Grants(c, s, readings) * c.interval <= s.credit + (t.last - s.last)
      && Grants(c, s, readings) <= c.burst + (t.last - s.last) / c.interval
  {
    var t := After(c, s, readings);
    var g := Grants(c, s, readings);
    InvAlong(c, s, readings);
    CreditIsConserved(c, s, readings);
    assert g * c.interval <= c.burst * c.interval + (t.last - s.last);
    Quotient(g, c.burst, t.last - s.last, c.interval);
  }

  lemma Quotient(g: int, b: int, e: int, k: int)
    requires k > 0 && g * k <= b * k + e
    ensures g <= b + e / k
  {
    var q := e / k;
    assert e < (q + 1) * k;
    assert k * (b + q + 1 - g) > 0;
    Positive(k, b + q + 1 - g);
  }

  /** A reading no later than `end` never pushes the bucket's clock past it. */
  lemma {:induction false} LastIsAReading(c: Config, s: State, readings: seq<int>, end: int)
    requires s.last <= end && forall i :: 0 <= i < |readings| ==> readings[i] <= end
    ensures After(c, s, readings).last <= end
    decreases |readings|
  {
    if readings != [] {
      LastIsAReading(c, Take(c, s, readings[0]).0, readings[1..], end);
    }
  }

  /** In a window of length `end - s.last` there are at most a burst and one grant an interval. */
  lemma WindowBound(c: Config, s: State, readings: seq<int>, end: int)
    requires Proper(c) && c.interval > 0 && Inv(c, s)
    requires s.last <= end && forall i :: 0 <= i < |readings| ==> readings[i] <= end
    ensures Grants(c, s, readings) <= c.burst + (end - s.last) / c.interval
  {
    InvAlong(c, s, readings);
    LastIsAReading(c, s, readings, end);
    RateBound(c, s, readings);
    var t := After(c, s, readings);
    assert Grants(c, s, readings) * c.interval <= c.burst * c.interval + (end - s.last);
    Quotient(Grants(c, s, readings), c.burst, end - s.last, c.interval);
  }

  // ---- what a refusal promises ----

  predicate AllRefused(c: Config, s: State, readings: seq<int>) {
    Grants(c, s, readings) == 0
  }

  /** Refusals leave the moment at which a token is complete where it was. */
  lemma {:induction false} RefusalsChangeNothing(c: Config, s: State, readings: seq<int>)
    requires Proper(c) && c.interval > 0 && Inv(c, s) && s.credit < c.interval
    requires AllRefused(c, s, readings)
    ensures
      var t := After(c, s, readings);
      t.credit - t.last == s.credit - s.last && t.credit < c.interval && Inv(c, t)
    decreases |readings|
  {
    if readings != [] {
      FullHoldsAToken(c);
      RefusalsChangeNothing(c, Take(c, s, readings[0]).0, readings[1..]);
    }
  }

  /** With no grant in between, a later call is granted exactly from the announced delay on. */
  lemma DelayIsExact(c: Config, s: State, now: int, others: seq<int>, later: int)
    requires Proper(c) && Inv(c, s)
    requires Take(c, s, now).1.Refused?
    requires AllRefused(c, Take(c, s, now).0, others)
    ensures
      var (t, answer) := Take(c, s, now);
      && answer.delay > 0
      && (Take(c, After(c, t, others), later).1.Granted? <==> later >= t.last + answer.delay)
  {
    var (t, answer) := Take(c, s, now);
    FullHoldsAToken(c);
    RefusalsChangeNothing(c, t, others);
  }

  /** A caller that comes back exactly when told is granted if and only if its first reading was not behind. */
  lemma ComingBackOnTime(c: Config, s: State, now: int)
    requires Proper(c) && Inv(c, s)
    requires Take(c, s, now).1.Refused?
    ensures
      var (t, answer) := Take(c, s, now);
      Take(c, t, now + answer.delay).1.Granted? <==> now >= s.last
  {
    DelayIsExact(c, s, now, [], now + Take(c, s, now).1.delay);
  }

  /** A first reading behind the bucket's clock: the caller comes back when told, and is refused again. */
  lemma ComingBackTooEarly()
    ensures
      var c, s := Config(10, 1), State(0, 100);
      && Take(c, s, 95) == (s, Refused(10))
      && Take(c, s, 105) == (State(5, 105), Refused(5))
  {
  }

  /** Without an interval nobody ever waits. */
  lemma WithoutAnInterval(c: Config, s: State, readings: seq<int>)
    requires c.interval <= 0
    ensures Grants(c, s, readings) == |readings| && After(c, s, readings) == s
    decreases |readings|
  {
    if readings != [] {
      WithoutAnInterval(c, s, readings[1..]);
    }
  }

  // ---- the object ----

  /** One turn of `Wait`: what the clock shows, and when the context is found done. */
  datatype Turn = Turn(now: int, doneAfterRefusal: bool, doneWhileWaiting: bool)

  datatype Waited = Ready | Cancelled | StillWaiting

  /** The turns `Wait` makes before it returns, and how. */
  function WaitOutcome(c: Config, s: State, turns: seq<Turn>): (State, Waited)
    decreases |turns|
  {
    if turns == [] then (s, StillWaiting)
    else
      var (t, answer) := Take(c, s, turns[0].now);
      if answer.Granted? then (t, Ready)
      else if turns[0].doneAfterRefusal || turns[0].doneWhileWaiting then (t, Cancelled)
      else WaitOutcome(c, t, turns[1..])
  }

  /** Waiting alone, on a clock that never goes back and timers that never ring early, takes at most two turns. */
  lemma TwoTurnsSuffice(c: Config, s: State, first: Turn, second: Turn)
    requires Proper(c) && Inv(c, s) && first.now >= s.last
    requires Take(c, s, first.now).1.Refused? ==> second.now >= first.now + Take(c, s, first.now).1.delay
    requires !first.doneAfterRefusal && !first.doneWhileWaiting
    ensures WaitOutcome(c, s, [first, second]).1 == Ready
  {
    if Take(c, s, first.now).1.Refused? {
      DelayIsExact(c, s, first.now, [], second.now);
      assert [first, second][1..] == [second];
    }
  }

  function Readings(turns: seq<Turn>): (rs: seq<int>)
    ensures |rs| == |turns| && forall i :: 0 <= i < |rs| ==> rs[i] == turns[i].now
  {
    if turns == [] then [] else [turns[0].now] + Readings(turns[1..])
  }

  /** The context was found done in the turn. */
  predicate GaveUp(turn: Turn) {
    turn.doneAfterRefusal || turn.doneWhileWaiting
  }

  /** `n` turns brought neither a grant nor the end of the context. */
  ghost predicate Fruitless(c: Config, s: State, turns: seq<Turn>, n: nat)
    requires n <= |turns|
  {
    AllRefused(c, s, Readings(turns[..n])) && forall k :: 0 <= k < n ==> !GaveUp(turns[k])
  }

  /**
   * `Wait` goes on through fruitless turns and ends with the first other one:
   * ready if that grants, whatever the context, and cancelled otherwise.
   */
  lemma {:induction false} WaitEnds(c: Config, s: State, turns: seq<Turn>) returns (n: nat)
    ensures n <= |turns| && Fruitless(c, s, turns, n)
    ensures
      var t := After(c, s, Readings(turns[..n]));
      if n == |turns| then WaitOutcome(c, s, turns) == (t, StillWaiting)
      else
        var (next, answer) := Take(c, t, turns[n].now);
        && (answer.Granted? || GaveUp(turns[n]))
        && WaitOutcome(c, s, turns) == (next, if answer.Granted? then Ready else Cancelled)
    decreases |turns|
  {
    if turns == [] || Take(c, s, turns[0].now).1.Granted? || GaveUp(turns[0]) {
      n := 0;
    } else {
      n := WaitEnds(c, Take(c, s, turns[0].now).0, turns[1..]);
      OneTurnMore(c, s, turns, n);
      n := n + 1;
    }
  }

  lemma OneTurnMore(c: Config, s: State, turns: seq<Turn>, n: nat)
    requires turns != [] && n < |turns| && Take(c, s, turns[0].now).1.Refused? && !GaveUp(turns[0])
    requires Fruitless(c, Take(c, s, turns[0].now).0, turns[1..], n)
    ensures Fruitless(c, s, turns, n + 1)
    ensures After(c, s, Readings(turns[..n + 1]))
         == After(c, Take(c, s, turns[0].now).0, Readings(turns[1..][..n]))
  {
    var all, rest := turns[..n + 1], turns[1..][..n];
    assert all[0] == turns[0] && all[1..] == rest;
    assert Readings(all)[0] == turns[0].now && Readings(all)[1..] == Readings(rest);
    forall k | 0 <= k < n + 1 ensures !GaveUp(turns[k]) {
      assert k > 0 ==> turns[k] == turns[1..][k - 1];
    }
  }

  class Bucket {
    const interval: int
    const burst: int
    var credit: int
    var last: int

    ghost function Limits(): Config {
      Config(interval, burst)
    }

    ghost function View(): State
      reads this
    {
      State(credit, last)
    }

    ghost predicate Valid()
      reads this
    {
      Proper(Limits()) && Inv(Limits(), View())
    }

    constructor (interval: int, burst: int, now: int)
      ensures Limits() == Normalize(interval, burst)
      ensures this.interval == (if interval < 0 then 0 else interval) && this.burst == (if burst < 1 then 1 else burst)
      ensures Valid() && View() == State(Full(Limits()), now)
    {
      var b := if burst < 1 then 1 else burst;
      var i := if interval < 0 then 0 else interval;
      this.burst, this.interval := b, i;
      credit, last := b * i, now;
      new;
      FullHoldsAToken(Limits());
    }

    method Reserve(now: int) returns (delay: int, ok: bool)
      requires Valid()
      modifies this
      ensures Valid()
      ensures (View(), if ok then Granted else Refused(delay)) == Take(Limits(), old(View()), now)
      ensures ok ==> delay == 0
    {
      FullHoldsAToken(Limits());
      if interval <= 0 {
        return 0, true;
      }
      var elapsed := now - last;
      if elapsed > 0 {
        credit := credit + elapsed;
        if credit > burst * interval {
          credit := burst * interval;
        }
        last := now;
      }
      if credit >= interval {
        credit := credit - interval;
        return 0, true;
      }
      return interval - credit, false;
    }

    /** The turns are those the clock and the context would allow; the loop uses as many as it needs. */
    method Wait(turns: seq<Turn>) returns (waited: Waited)
      requires Valid()
      modifies this
      ensures Valid() && (View(), waited) == WaitOutcome(Limits(), old(View()), turns)
    {
      for i := 0 to |turns|
        invariant Valid()
        invariant WaitOutcome(Limits(), View(), turns[i..]) == WaitOutcome(Limits(), old(View()), turns)
      {
        var turn := turns[i];
        assert turns[i..][0] == turn && turns[i..][1..] == turns[i + 1..];
        var delay, ok := Reserve(turn.now);
        if ok {
          return Ready;
        }
        if turn.doneAfterRefusal || turn.doneWhileWaiting {
          return Cancelled;
        }
      }
      return StillWaiting;
    }
  }
}
