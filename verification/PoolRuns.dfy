/** What holds of the pool in every state of every interleaving. */
module PoolRuns {
  import opened Prelude
  import opened SmtpPool
  import opened PoolOwnership
  import opened PoolChannels

  // ---- counting ----

  /** Phases that hold a slot of `open` for a connection in neither idle nor active. */
  predicate InTransit(p: Phase) {
    p.Checking? || p.Claiming? || p.Dialling? || p.DialFailed? || p.Dropping? || p.Settling? || p.Replacing?
  }

  function InTransitIn(m: map<Thread, Phase>): set<Thread> {
    set t | t in m && InTransit(m[t])
  }

  function RetryingIn(m: map<Thread, Phase>): set<Thread> {
    set t | t in m && m[t].Retrying?
  }

  function Transit(s: Sys): set<Thread> {
    InTransitIn(s.phase)
  }

  /** Waiters woken by a nil they have received, back at the top of Get's loop. */
  function Retriers(s: Sys): set<Thread> {
    RetryingIn(s.phase)
  }

  /** Channels holding a nil not yet received: their owners have been woken. */
  function Signalled(sh: Shared): set<ChanId> {
    set ch | ch in sh.chans && sh.chans[ch].buffer == Some(None)
  }

  function One(b: bool): nat { if b then 1 else 0 }

  lemma CountAfter(before: set<Thread>, after: set<Thread>, t: Thread)
    requires forall u :: u != t ==> (u in before <==> u in after)
    ensures |after| == |before| - One(t in before) + One(t in after)
  {
    var rest := before - {t};
    assert rest == after - {t};
    assert before == if t in before then rest + {t} else rest;
    assert after == if t in after then rest + {t} else rest;
  }

  lemma BothCounts(s: Sys, t: Thread, p: Phase)
    ensures var m := s.phase[t := p];
            && |InTransitIn(m)| == |Transit(s)| - One(InTransit(Ph(s, t))) + One(InTransit(p))
            && |RetryingIn(m)| == |Retriers(s)| - One(Ph(s, t).Retrying?) + One(p.Retrying?)
  {
    CountAfter(Transit(s), InTransitIn(s.phase[t := p]), t);
    CountAfter(Retriers(s), RetryingIn(s.phase[t := p]), t);
  }

  // ---- the counting invariant ----

  ghost predicate Accounts(cfg: Config, s: Sys) {
    && s.sh.open == |s.sh.idle| + |s.sh.active| + |Transit(s)|
    && (cfg.maxOpen > 0 ==> s.sh.open <= cfg.maxOpen)
    && |s.sh.idle| <= cfg.maxIdle
    && !s.sh.floored
    && (s.sh.closed ==> s.sh.idle == [] && s.sh.waiters == [])
  }

  /** A queue means no idle connection, and no free slot that some woken waiter is not about to claim. */
  ghost predicate NoneForgotten(cfg: Config, s: Sys) {
    |s.sh.waiters| > 0 ==>
      && s.sh.idle == []
      && cfg.maxOpen - s.sh.open <= |Signalled(s.sh)| + |Retriers(s)| + s.swallowed
  }

  ghost predicate Invariant(cfg: Config, s: Sys) {
    Ownership(s) && Channels(s) && Accounts(cfg, s) && NoneForgotten(cfg, s)
  }

  lemma LockCounts(cfg: Config, s: Sys, t: Thread)
    requires Invariant(cfg, s)
    ensures Accounts(cfg, DoLock(cfg, s, t)) && NoneForgotten(cfg, DoLock(cfg, s, t))
  {
    var s' := DoLock(cfg, s, t);
    if Ph(s, t).Asking? || Ph(s, t).Retrying? {
      BothCounts(s, t, Ph(s', t));
      assert Signalled(s'.sh) == Signalled(s.sh);
    }
  }

  lemma ClaimCounts(cfg: Config, s: Sys, t: Thread)
    requires Invariant(cfg, s)
    ensures Accounts(cfg, DoClaim(s, t)) && NoneForgotten(cfg, DoClaim(s, t))
  {
    if Ph(s, t).Claiming? {
      BothCounts(s, t, Out);
      assert At(s, Hands(t)) == Some(Ph(s, t).c) && !Live(s, Hands(t));
    }
  }

  lemma ForgetCounts(cfg: Config, s: Sys, t: Thread)
    requires Invariant(cfg, s)
    ensures Accounts(cfg, DoForget(s, t)) && NoneForgotten(cfg, DoForget(s, t))
  {
    if Ph(s, t).Returning? {
      BothCounts(s, t, Ph(DoForget(s, t), t));
      assert At(s, Hands(t)) == Some(Ph(s, t).c) && Live(s, Hands(t));
    }
  }

  lemma DecCounts(cfg: Config, s: Sys, s': Sys, t: Thread)
    requires Invariant(cfg, s) && InTransit(Ph(s, t))
    requires !InTransit(Ph(s', t)) && !Ph(s', t).Retrying?
    requires s' == Go(s, DecOpen(s.sh), t, Ph(s', t))
    ensures Accounts(cfg, s') && NoneForgotten(cfg, s')
  {
    BothCounts(s, t, Ph(s', t));
    assert t in Transit(s);
    assert |Transit(s)| > 0;
    if |s.sh.waiters| > 0 {
      var head := s.sh.waiters[0];
      assert head in s.sh.waiters;
      assert Signalled(s'.sh) == Signalled(s.sh) + {head};
    }
  }

  lemma TakeCounts(cfg: Config, s: Sys, t: Thread)
    requires Invariant(cfg, s)
    ensures Accounts(cfg, DoReceive(s, t)) && NoneForgotten(cfg, DoReceive(s, t))
    ensures Accounts(cfg, DoDrain(s, t)) && NoneForgotten(cfg, DoDrain(s, t))
  {
    var w := WaitsOn(Ph(s, t));
    if w.Some? && Answerable(s.sh, w.value) {
      var ch := w.value;
      var after := Signalled(Emptied(s.sh, ch));
      assert after == Signalled(s.sh) - {ch};
      BothCounts(s, t, Ph(DoReceive(s, t), t));
      BothCounts(s, t, Ph(DoDrain(s, t), t));
    }
  }

  lemma ReplaceCounts(cfg: Config, s: Sys, t: Thread)
    requires Invariant(cfg, s)
    ensures Accounts(cfg, DoReplace(cfg, s, t)) && NoneForgotten(cfg, DoReplace(cfg, s, t))
  {
    var s' := DoReplace(cfg, s, t);
    if Ph(s, t).Replacing? {
      BothCounts(s, t, Ph(s', t));
      assert At(s, Hands(t)) == Some(Ph(s, t).c) && !Live(s, Hands(t));
      match GiveBack(cfg, s.sh, Ph(s, t).c).1
      case Late => DecCounts(cfg, s, s', t);
      case Surplus => DecCounts(cfg, s, s', t);
      case Passed(ch) => assert Signalled(s'.sh) == Signalled(s.sh);
      case Kept =>
    }
  }

  lemma HandCounts(cfg: Config, s: Sys, t: Thread)
    requires Invariant(cfg, s)
    ensures Accounts(cfg, DoHand(s, t)) && NoneForgotten(cfg, DoHand(s, t))
  {
    if Ph(s, t).Handing? {
      assert HandOk(s, t);
      BothCounts(s, t, Out);
      assert Signalled(DoHand(s, t).sh) == Signalled(s.sh);
    }
  }

  lemma CloseCounts(cfg: Config, s: Sys)
    requires Invariant(cfg, s)
    ensures Accounts(cfg, s.(sh := Shut(s.sh))) && NoneForgotten(cfg, s.(sh := Shut(s.sh)))
  {
    if !s.sh.closed {
      SendNilsSpec(s.sh.(closed := true, idle := [], open := s.sh.open - |s.sh.idle|), s.sh.waiters);
    }
  }

  /** An action that only moves `t`, between phases that count alike. */
  lemma PhaseCounts(cfg: Config, s: Sys, s': Sys, t: Thread)
    requires Invariant(cfg, s)
    requires s'.phase == s.phase[t := Ph(s', t)] && s'.swallowed == s.swallowed
    requires InTransit(Ph(s, t)) == InTransit(Ph(s', t)) && Ph(s, t).Retrying? == Ph(s', t).Retrying?
    requires s'.sh == s.sh.(waiters := s'.sh.waiters) && |s'.sh.waiters| <= |s.sh.waiters|
    ensures Accounts(cfg, s') && NoneForgotten(cfg, s')
  {
    BothCounts(s, t, Ph(s', t));
  }

  lemma {:induction false} WithoutIsShorter(ws: seq<ChanId>, ch: ChanId)
    ensures |Without(ws, ch)| <= |ws|
  {
    if ws != [] {
      WithoutIsShorter(ws[1..], ch);
    }
  }

  lemma GetCounts(cfg: Config, s: Sys, a: Action)
    requires Invariant(cfg, s) && (a.StartGet? || a.Checked? || a.Dialled? || a.Cancel?)
    ensures Accounts(cfg, Next(cfg, s, a)) && NoneForgotten(cfg, Next(cfg, s, a))
  {
    var p := Ph(s, a.t);
    if || (a.StartGet? && p.Out?) || (a.Checked? && p.Checking?)
       || (a.Dialled? && p.Dialling?) || (a.Cancel? && p.Waiting?) {
      PhaseCounts(cfg, s, Next(cfg, s, a), a.t);
    }
  }

  lemma PutCounts(cfg: Config, s: Sys, a: Action)
    requires Invariant(cfg, s) && (a.StartPut? || a.Settled?)
    ensures Accounts(cfg, Next(cfg, s, a)) && NoneForgotten(cfg, Next(cfg, s, a))
  {
    if (a.StartPut? && Ph(s, a.t).Out? && a.c in s.loans) || (a.Settled? && Ph(s, a.t).Settling?) {
      PhaseCounts(cfg, s, Next(cfg, s, a), a.t);
    }
  }

  lemma LeaveCounts(cfg: Config, s: Sys, t: Thread)
    requires Invariant(cfg, s)
    ensures Accounts(cfg, DoLeaveQueue(s, t)) && NoneForgotten(cfg, DoLeaveQueue(s, t))
  {
    if Ph(s, t).Cancelling? {
      WithoutIsShorter(s.sh.waiters, Ph(s, t).ch);
      PhaseCounts(cfg, s, DoLeaveQueue(s, t), t);
    }
  }

  lemma ReleaseCounts(cfg: Config, s: Sys, t: Thread)
    requires Invariant(cfg, s)
    ensures Accounts(cfg, DoRelease(s, t)) && NoneForgotten(cfg, DoRelease(s, t))
  {
    if Ph(s, t).DialFailed? || Ph(s, t).Dropping? {
      DecCounts(cfg, s, DoRelease(s, t), t);
    }
  }

  lemma CountsKept(cfg: Config, s: Sys, a: Action)
    requires Invariant(cfg, s)
    ensures Accounts(cfg, Next(cfg, s, a)) && NoneForgotten(cfg, Next(cfg, s, a))
  {
    match a
    case Lock(t) => LockCounts(cfg, s, t);
    case Claim(t) => ClaimCounts(cfg, s, t);
    case Forget(t) => ForgetCounts(cfg, s, t);
    case Release(t) => ReleaseCounts(cfg, s, t);
    case Receive(t) => TakeCounts(cfg, s, t);
    case Drain(t) => TakeCounts(cfg, s, t);
    case LeaveQueue(t) => LeaveCounts(cfg, s, t);
    case Replace(t) => ReplaceCounts(cfg, s, t);
    case Hand(t) => HandCounts(cfg, s, t);
    case Close => CloseCounts(cfg, s);
    case StartPut(_, _, _) => PutCounts(cfg, s, a);
    case Settled(_, _) => PutCounts(cfg, s, a);
    case _ => GetCounts(cfg, s, a);
  }

  lemma InvariantKept(cfg: Config, s: Sys, a: Action)
    requires Invariant(cfg, s)
    ensures Invariant(cfg, Next(cfg, s, a))
  {
    forall t | Ph(s, t).Handing?
      ensures Ph(s, t).ch in s.sh.chans && s.sh.chans[Ph(s, t).ch].buffer.None?
    {
      assert HandOk(s, t);
    }
    OwnershipKept(cfg, s, a);
    ChannelsKept(cfg, s, a);
    CountsKept(cfg, s, a);
  }

  lemma InvariantAtStart(cfg: Config)
    requires cfg.maxIdle >= 0
    ensures Invariant(cfg, Init())
  {
    assert forall p :: At(Init(), p).None?;
  }

  lemma {:induction false} InvariantAlong(cfg: Config, s: Sys, run: seq<Action>)
    requires Invariant(cfg, s)
    ensures Invariant(cfg, Exec(cfg, s, run))
    decreases |run|
  {
    if run != [] {
      InvariantKept(cfg, s, run[0]);
      InvariantAlong(cfg, Next(cfg, s, run[0]), run[1..]);
    }
  }

  /** The state some run of a new pool reaches. */
  function Reached(cfg: Config, run: seq<Action>): Sys {
    Exec(Normalize(cfg), Init(), run)
  }

  lemma InvariantReached(cfg: Config, run: seq<Action>)
    ensures Invariant(Normalize(cfg), Reached(cfg, run))
  {
    InvariantAtStart(Normalize(cfg));
    InvariantAlong(Normalize(cfg), Init(), run);
  }

  // ---- the results ----

  /** Slots are accounted for exactly, the limits hold, and no defensive floor is ever used. */
  lemma OpenIsExact(cfg: Config, run: seq<Action>)
    ensures var s := Reached(cfg, run);
            && s.sh.open == |s.sh.idle| + |s.sh.active| + |Transit(s)|
            && (cfg.maxOpen > 0 ==> s.sh.open <= cfg.maxOpen)
            && |s.sh.idle| <= Normalize(cfg).maxIdle
            && !s.sh.floored
  {
    InvariantReached(cfg, run);
  }

  /** No connection is in two places, and the active ones are those a caller, a channel or a Put holds. */
  lemma EveryConnectionHasOneOwner(cfg: Config, run: seq<Action>)
    ensures var s := Reached(cfg, run);
            && (forall p, q :: At(s, p).Some? && At(s, p) == At(s, q) ==> p == q)
            && (forall c :: c in s.sh.active <==> exists p :: At(s, p) == Some(c) && Live(s, p))
  {
    InvariantReached(cfg, run);
    var s := Reached(cfg, run);
    forall c ensures c in s.sh.active <==> exists p :: At(s, p) == Some(c) && Live(s, p) {
      if c in s.sh.active {
        var p :| At(s, p) == Some(c);
        assert Live(s, p);
      }
    }
  }

  /**
   * No send ever finds its channel full, each channel is sent at most one
   * value, and whoever waits on a channel, cancelled or not, is answered: the
   * value is there, or a Put is about to send it, or the channel is queued. A
   * value in a channel always has a receiver left.
   */
  lemma EveryWaitIsAnswered(cfg: Config, run: seq<Action>)
    ensures var s := Reached(cfg, run);
            && !s.sh.stuck
            && (forall ch :: ch in s.sh.chans ==> s.sh.chans[ch].sends <= 1)
            && (forall t :: WaitsOn(Ph(s, t)).Some? ==>
                  var ch := WaitsOn(Ph(s, t)).value;
                  Answerable(s.sh, ch) || InFlight(s, ch) || (ch in s.sh.waiters && !Ph(s, t).Draining?))
            && (forall ch :: Answerable(s.sh, ch) ==> OwnerWaits(s, ch))
            && (forall ch :: ch in s.sh.waiters ==> Fresh(s, ch) && OwnerWaits(s, ch))
  {
    InvariantReached(cfg, run);
    var s := Reached(cfg, run);
    forall t | WaitsOn(Ph(s, t)).Some?
      ensures var ch := WaitsOn(Ph(s, t)).value;
              Answerable(s.sh, ch) || InFlight(s, ch) || (ch in s.sh.waiters && !Ph(s, t).Draining?)
    {
      assert Answered(s, t);
    }
  }

  /** While a queue exists nothing is idle, and every free slot has a woken waiter, but for swallowed wake-ups. */
  lemma NoMissedWakeUp(cfg: Config, run: seq<Action>)
    ensures var s := Reached(cfg, run);
            |s.sh.waiters| > 0 ==>
              && s.sh.idle == []
              && cfg.maxOpen - s.sh.open <= |Signalled(s.sh)| + |Retriers(s)| + s.swallowed
  {
    InvariantReached(cfg, run);
  }

  /** `s` is about to swallow a wake-up: line 151 is about to receive nil. */
  predicate Swallows(s: Sys, a: Action) {
    a.Drain? && Ph(s, a.t).Draining?
    && Answerable(s.sh, Ph(s, a.t).ch) && s.sh.chans[Ph(s, a.t).ch].buffer.value.None?
  }

  /** The count goes up exactly when a cancelled waiter receives nil. */
  lemma SwallowedCounts(cfg: Config, s: Sys, a: Action)
    ensures Next(cfg, s, a).swallowed == s.swallowed + One(Swallows(s, a))
  {
  }

  predicate NeverSwallows(cfg: Config, s: Sys, run: seq<Action>)
    decreases |run|
  {
    run == [] || (!Swallows(s, run[0]) && NeverSwallows(cfg, Next(cfg, s, run[0]), run[1..]))
  }

  lemma {:induction false} NothingSwallowed(cfg: Config, s: Sys, run: seq<Action>)
    requires NeverSwallows(cfg, s, run)
    ensures Exec(cfg, s, run).swallowed == s.swallowed
    decreases |run|
  {
    if run != [] {
      SwallowedCounts(cfg, s, run[0]);
      NothingSwallowed(cfg, Next(cfg, s, run[0]), run[1..]);
    }
  }

  /** In a run that swallows nothing every free slot has a waiter woken to take it. */
  lemma EveryFreeSlotIsAnnounced(cfg: Config, run: seq<Action>)
    requires NeverSwallows(Normalize(cfg), Init(), run)
    ensures var s := Reached(cfg, run);
            |s.sh.waiters| > 0 ==> cfg.maxOpen - s.sh.open <= |Signalled(s.sh)| + |Retriers(s)|
  {
    NoMissedWakeUp(cfg, run);
    NothingSwallowed(Normalize(cfg), Init(), run);
  }

  /**
   * The code forgets a waiter when a wake-up is swallowed: this run ends with a
   * queue, a free slot and nobody woken to take it.
   */
  function ForgettingAction(i: nat): Action {
    match i
    case 0 => StartGet(1)
    case 1 => Lock(1)            // 1 takes the only slot and dials
    case 2 => StartGet(2)
    case 3 => Lock(2)
    case 4 => StartGet(3)
    case 5 => Lock(3)            // 2 and 3 queue
    case 6 => Cancel(2)          // 2's context ends
    case 7 => Dialled(1, false)
    case 8 => Release(1)         // the slot goes to 2 as a nil
    case 9 => LeaveQueue(2)
    case _ => Drain(2)           // which 2 drops
  }

  function ForgettingState(i: nat): Sys {
    var start := Init().sh;
    var busy := start.(open := 1);
    var one := busy.(waiters := [0], chans := map[0 := Chan(2, None, 0)]);
    var two := busy.(waiters := [0, 1], chans := map[0 := Chan(2, None, 0), 1 := Chan(3, None, 0)]);
    var woken := start.(waiters := [1], chans := map[0 := Chan(2, Some(None), 1), 1 := Chan(3, None, 0)]);
    var lost := woken.(chans := map[0 := Chan(2, None, 1), 1 := Chan(3, None, 0)]);
    match i
    case 0 => Init()
    case 1 => Sys(start, map[1 := Asking], {}, 0, 0, 0)
    case 2 => Sys(busy, map[1 := Dialling], {}, 0, 0, 0)
    case 3 => Sys(busy, map[1 := Dialling, 2 := Asking], {}, 0, 0, 0)
    case 4 => Sys(one, map[1 := Dialling, 2 := Waiting(0)], {}, 0, 1, 0)
    case 5 => Sys(one, map[1 := Dialling, 2 := Waiting(0), 3 := Asking], {}, 0, 1, 0)
    case 6 => Sys(two, map[1 := Dialling, 2 := Waiting(0), 3 := Waiting(1)], {}, 0, 2, 0)
    case 7 => Sys(two, map[1 := Dialling, 2 := Cancelling(0), 3 := Waiting(1)], {}, 0, 2, 0)
    case 8 => Sys(two, map[1 := DialFailed, 2 := Cancelling(0), 3 := Waiting(1)], {}, 0, 2, 0)
    case 9 => Sys(woken, map[1 := Out, 2 := Cancelling(0), 3 := Waiting(1)], {}, 0, 2, 0)
    case 10 => Sys(woken, map[1 := Out, 2 := Draining(0), 3 := Waiting(1)], {}, 0, 2, 0)
    case _ => Sys(lost, map[1 := Out, 2 := Out, 3 := Waiting(1)], {}, 0, 2, 1)
  }

  function ForgettingRun(): seq<Action> {
    seq(11, i requires 0 <= i => ForgettingAction(i))
  }

  lemma ForgettingStep(i: nat)
    requires i < 11
    ensures Next(Config(1, 1, true), ForgettingState(i), ForgettingAction(i)) == ForgettingState(i + 1)
  {
    if i < 4 {
      FirstWaits(i);
    } else if i < 8 {
      SecondWaits(i);
    } else if i == 8 {
      WakeUpComes();
    } else {
      WakeUpIsLost(i);
    }
  }

  lemma FirstWaits(i: nat)
    requires i < 4
    ensures Next(Config(1, 1, true), ForgettingState(i), ForgettingAction(i)) == ForgettingState(i + 1)
  {
    match i case 0 => case 1 => case 2 => case _ =>
  }

  lemma SecondWaits(i: nat)
    requires 4 <= i < 8
    ensures Next(Config(1, 1, true), ForgettingState(i), ForgettingAction(i)) == ForgettingState(i + 1)
  {
    match i case 4 => case 5 => case 6 => case _ =>
  }

  lemma WakeUpComes()
    ensures Next(Config(1, 1, true), ForgettingState(8), ForgettingAction(8)) == ForgettingState(9)
  {
  }

  lemma WakeUpIsLost(i: nat)
    requires 9 <= i < 11
    ensures Next(Config(1, 1, true), ForgettingState(i), ForgettingAction(i)) == ForgettingState(i + 1)
  {
    match i case 9 => case _ =>
  }

  lemma ForgettingEnds()
    ensures Reached(Config(1, 1, true), ForgettingRun()) == ForgettingState(11)
  {
    var cfg, states := Config(1, 1, true), seq(12, i requires 0 <= i => ForgettingState(i));
    var step := (s: Sys, a: Action) => Next(cfg, s, a);
    forall i | 0 <= i < 11 ensures step(states[i], ForgettingRun()[i]) == states[i + 1] {
      ForgettingStep(i);
    }
    FoldTrace(step, ForgettingRun(), states);
  }

  /** A queue, a free slot, nobody woken, and one wake-up swallowed. */
  ghost predicate Forgotten(s: Sys) {
    && |s.sh.waiters| == 1 && s.sh.open == 0 && s.sh.idle == []
    && Signalled(s.sh) == {} && Retriers(s) == {}
    && s.swallowed == 1
  }

  lemma LastIsForgotten()
    ensures Forgotten(ForgettingState(11))
  {
    var s := ForgettingState(11);
    assert s.sh.chans == map[0 := Chan(2, None, 1), 1 := Chan(3, None, 0)];
    assert s.phase == map[1 := Out, 2 := Out, 3 := Waiting(1)];
  }

  lemma WakeUpCanBeSwallowed()
    ensures Forgotten(Reached(Config(1, 1, true), ForgettingRun()))
  {
    ForgettingEnds();
    LastIsForgotten();
  }

  lemma ClosedStep(cfg: Config, s: Sys, a: Action)
    requires Invariant(cfg, s) && s.sh.closed
    ensures Next(cfg, s, a).sh.closed && Next(cfg, s, a).sh.open <= s.sh.open
  {
  }

  lemma {:induction false} ClosedAlong(cfg: Config, s: Sys, run: seq<Action>)
    requires Invariant(cfg, s) && s.sh.closed
    ensures Exec(cfg, s, run).sh.closed && Exec(cfg, s, run).sh.open <= s.sh.open
    decreases |run|
  {
    if run != [] {
      ClosedStep(cfg, s, run[0]);
      InvariantKept(cfg, s, run[0]);
      ClosedAlong(cfg, Next(cfg, s, run[0]), run[1..]);
    }
  }

  /**
   * However the run goes on after Close, idle and the queue stay empty, `open`
   * never rises and is what is still out, and it is zero once nothing is.
   */
  lemma AfterClose(cfg: Config, run: seq<Action>, more: seq<Action>)
    requires Reached(cfg, run).sh.closed
    ensures var s, s' := Reached(cfg, run), Reached(cfg, run + more);
            && s'.sh.closed && s'.sh.idle == [] && s'.sh.waiters == []
            && s'.sh.open <= s.sh.open
            && s'.sh.open == |s'.sh.active| + |Transit(s')|
            && (s'.sh.active == {} && Transit(s') == {} ==> s'.sh.open == 0)
  {
    FoldSplit((s: Sys, a: Action) => Next(Normalize(cfg), s, a), Init(), run, more);
    InvariantReached(cfg, run);
    InvariantReached(cfg, run + more);
    ClosedAlong(Normalize(cfg), Reached(cfg, run), more);
  }
}
