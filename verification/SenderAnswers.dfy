/** What the background sender answers its callers, and what becomes of each failure. */
module SenderAnswers {
  import opened Prelude
  import opened BackgroundSending

  // ---- neither channel ever holds more than its capacity ----

  predicate Capped(capacity: nat, s: Sys) {
    |s.sh.queue| <= capacity && |s.sh.errs| <= capacity
  }

  lemma CappedKept(capacity: nat, s: Sys, a: Action)
    requires Capped(capacity, s)
    ensures Capped(capacity, Next(capacity, s, a))
  {
    match a
    case Push(t, to) => CappedInPush(capacity, s, t, to);
    case Advance =>
      AdvanceLeavesMail(s);
      AdvanceLeavesErrors(s);
    case _ =>
  }

  lemma CappedInPush(capacity: nat, s: Sys, t: Thread, to: Option<Worker>)
    requires Capped(capacity, s)
    ensures Capped(capacity, DoPush(s, capacity, t, to))
  {
  }

  lemma AdvanceLeavesErrors(s: Sys)
    ensures DoAdvance(s).sh.errs == s.sh.errs && DoAdvance(s).workers == s.workers
  {
    match s.stage
    case Begun => if s.readers == map[] {}
    case Unlocked => if s.now {} else if AllDone(s.workers) {}
    case Cancelled => if AllDone(s.workers) {}
    case _ =>
  }

  lemma {:induction false} CappedAlong(capacity: nat, s: Sys, run: seq<Action>)
    requires Capped(capacity, s)
    ensures Capped(capacity, Exec(capacity, s, run))
    decreases |run|
  {
    if run != [] {
      CappedKept(capacity, s, run[0]);
      CappedAlong(capacity, Next(capacity, s, run[0]), run[1..]);
    }
  }

  lemma NeverOverfull(capacity: nat, run: seq<Action>)
    ensures Capped(capacity, Exec(capacity, Init(), run))
  {
    CappedAlong(capacity, Init(), run);
  }

  // ---- what TrySend answers ----

  /** `email` went into the queue, or to the worker that was waiting for it. */
  ghost predicate TakenIn(s: Sys, s': Sys, email: Email, to: Option<Worker>) {
    && s'.accepted == s.accepted + [email]
    && if CanHand(s, to)
       then s'.sh.queue == [] && s'.workers == s.workers[to.value := Got(|s.accepted|, email)]
       else s'.sh.queue == s.sh.queue + [email] && s'.workers == s.workers
  }

  ghost predicate TurnedAway(s: Sys, s': Sys) {
    s'.accepted == s.accepted && s'.sh.queue == s.sh.queue && s'.workers == s.workers
  }

  /**
   * In every reachable state: an e-mail is accepted exactly when the sender
   * has not been stopped and there is room in the buffer or a worker waiting
   * for it. It is refused as stopped exactly once the flag is set, and as full
   * only when the buffer is full to its capacity.
   */
  lemma TrySendAnswers(capacity: nat, run: seq<Action>, t: Thread, to: Option<Worker>)
    requires t in Exec(capacity, Init(), run).readers
    ensures
      var s := Exec(capacity, Init(), run);
      var email, s' := s.readers[t], Next(capacity, s, Push(t, to));
      var answer := TrySend(s.sh, capacity, email, CanHand(s, to)).1;
      && s'.readers == s.readers - {t}
      && (if !s.sh.stopped && (|s.sh.queue| < capacity || CanHand(s, to))
          then TakenIn(s, s', email, to) else TurnedAway(s, s'))
      && (answer.Accepted? <==> s'.accepted != s.accepted)
      && (answer.SenderStopped? <==> s.sh.stopped)
      && (answer.QueueFull? <==> !s.sh.stopped && |s.sh.queue| == capacity && !CanHand(s, to))
  {
    InvariantAlong(capacity, Init(), run);
    NeverOverfull(capacity, run);
  }

  /** Starting workers adds as many as were asked for, and at least one. */
  lemma StartAddsWorkers(capacity: nat, s: Sys, n: int)
    requires s.stage.Running?
    ensures
      var s' := Next(capacity, s, Start(n));
      && s' == s.(workers := s'.workers) && s.workers <= s'.workers
      && |s'.workers| == |s.workers| + (if n >= 1 then n else 1)
      && forall w :: |s.workers| <= w < |s'.workers| ==> s'.workers[w].Ranging?
  {
  }

  // ---- the two ways to stop ----

  lemma StopStep(capacity: nat, s: Sys, a: Action)
    requires a != BeginStop(true) && !s.now
    ensures !Next(capacity, s, a).now
  {
  }

  lemma {:induction false} StopAlong(capacity: nat, s: Sys, run: seq<Action>)
    requires BeginStop(true) !in run && !s.now
    ensures !Exec(capacity, s, run).now
    decreases |run|
  {
    if run != [] {
      assert run[0] in run && forall a :: a in run[1..] ==> a in run;
      StopStep(capacity, s, run[0]);
      StopAlong(capacity, Next(capacity, s, run[0]), run[1..]);
    }
  }

  lemma NowStep(capacity: nat, s: Sys, a: Action)
    requires a != BeginStop(false) && (s.stage.Running? || s.now)
    ensures Next(capacity, s, a).stage.Running? || Next(capacity, s, a).now
  {
  }

  lemma {:induction false} NowAlong(capacity: nat, s: Sys, run: seq<Action>)
    requires BeginStop(false) !in run && (s.stage.Running? || s.now)
    ensures Exec(capacity, s, run).stage.Running? || Exec(capacity, s, run).now
    decreases |run|
  {
    if run != [] {
      assert run[0] in run && forall a :: a in run[1..] ==> a in run;
      NowStep(capacity, s, run[0]);
      NowAlong(capacity, Next(capacity, s, run[0]), run[1..]);
    }
  }

  /**
   * Only a call of StopNow makes a stop one that cancels first. Once the queue
   * is closed such a stop cancels at once, whatever the workers are doing, and
   * the other kind waits until every worker has finished.
   */
  lemma StopWaitsStopNowDoesNot(capacity: nat, run: seq<Action>)
    ensures
      var s := Exec(capacity, Init(), run);
      && (BeginStop(true) !in run ==> !s.now)
      && (BeginStop(false) !in run ==> s.stage.Running? || s.now)
      && (s.stage.Unlocked? && s.now ==> Next(capacity, s, Advance).sh.cancelled)
      && (s.stage.Unlocked? && !s.now && !AllDone(s.workers) ==> Next(capacity, s, Advance) == s)
  {
    if BeginStop(true) !in run {
      StopAlong(capacity, Init(), run);
    }
    if BeginStop(false) !in run {
      NowAlong(capacity, Init(), run);
    }
  }

  // ---- what becomes of a failure ----

  /** How many workers are about to report that this e-mail failed. */
  function Reporters(workers: seq<Phase>, email: Email): nat {
    if workers == [] then 0 else Told(workers[0], email) + Reporters(workers[1..], email)
  }

  function Told(p: Phase, email: Email): nat {
    if p == Reporting(email) then 1 else 0
  }

  /** How often the e-mail is in the error channel. */
  function Copies(errs: seq<Email>, email: Email): nat {
    if errs == [] then 0 else Once(errs[0], email) + Copies(errs[1..], email)
  }

  function Once(one: Email, email: Email): nat {
    if one == email then 1 else 0
  }

  lemma {:induction false} CopiesAppended(errs: seq<Email>, one: Email, email: Email)
    ensures Copies(errs + [one], email) == Copies(errs, email) + Once(one, email)
    decreases |errs|
  {
    if errs == [] {
      assert [] + [one] == [one] && [one][1..] == [];
    } else {
      assert (errs + [one])[1..] == errs[1..] + [one];
      CopiesAppended(errs[1..], one, email);
    }
  }

  lemma {:induction false} ReportersAfter(workers: seq<Phase>, w: nat, p: Phase, email: Email)
    requires w < |workers|
    ensures Reporters(workers[w := p], email) == Reporters(workers, email) - Told(workers[w], email) + Told(p, email)
    decreases |workers|
  {
    if w == 0 {
      assert workers[0 := p][1..] == workers[1..];
    } else {
      assert workers[w := p][1..] == workers[1..][w - 1 := p];
      ReportersAfter(workers[1..], w - 1, p, email);
    }
  }

  lemma {:induction false} ReportersAppended(workers: seq<Phase>, more: seq<Phase>, email: Email)
    requires forall i :: 0 <= i < |more| ==> more[i].Ranging?
    ensures Reporters(workers + more, email) == Reporters(workers, email)
    decreases |workers|, |more|
  {
    if workers != [] {
      assert (workers + more)[1..] == workers[1..] + more;
      ReportersAppended(workers[1..], more, email);
    } else {
      assert workers + more == more;
      if more != [] {
        assert [] + more[1..] == more[1..];
        ReportersAppended([], more[1..], email);
      }
    }
  }

  /** How often sending the e-mail failed, and how often that was heard, dropped, or read from the channel. */
  datatype Fates = Fates(failed: nat, heard: nat, dropped: nat, read: nat)

  const NOTHING := Fates(0, 0, 0, 0)

  function Together(f: Fates, g: Fates): Fates {
    Fates(f.failed + g.failed, f.heard + g.heard, f.dropped + g.dropped, f.read + g.read)
  }

  /** A reader that waits on an empty channel hears a report; a report is dropped only when the channel is full. */
  function StepFates(capacity: nat, s: Sys, a: Action, email: Email): Fates {
    match a
    case SenderReturned(w, failed) =>
      if w < |s.workers| && s.workers[w] == Sending(email) && failed then NOTHING.(failed := 1) else NOTHING
    case ReportError(w, readerReady) =>
      if w >= |s.workers| || s.workers[w] != Reporting(email) then NOTHING
      else if readerReady && s.sh.errs == [] then NOTHING.(heard := 1)
      else if |s.sh.errs| == capacity then NOTHING.(dropped := 1)
      else NOTHING
    case ReadError => if s.sh.errs == [] then NOTHING else NOTHING.(read := Once(s.sh.errs[0], email))
    case _ => NOTHING
  }

  function RunFates(capacity: nat, s: Sys, run: seq<Action>, email: Email): Fates
    decreases |run|
  {
    if run == [] then NOTHING
    else
      Together(StepFates(capacity, s, run[0], email), RunFates(capacity, Next(capacity, s, run[0]), run[1..], email))
  }

  /** Failures whose report is still to be made or in the channel. */
  function Unread(s: Sys, email: Email): nat {
    Reporters(s.workers, email) + Copies(s.sh.errs, email)
  }

  ghost predicate Balanced(s: Sys, s': Sys, f: Fates, email: Email) {
    Unread(s', email) + f.heard + f.dropped + f.read == Unread(s, email) + f.failed
  }

  lemma ReturnBalances(capacity: nat, s: Sys, w: Worker, failed: bool, email: Email)
    ensures Balanced(s, Next(capacity, s, SenderReturned(w, failed)),
                     StepFates(capacity, s, SenderReturned(w, failed), email), email)
  {
    if w < |s.workers| && s.workers[w].Sending? {
      ReportersAfter(s.workers, w, if failed then Reporting(s.workers[w].email) else Ranging, email);
    }
  }

  lemma ReportBalances(capacity: nat, s: Sys, w: Worker, readerReady: bool, email: Email)
    requires !s.sh.errsClosed && Capped(capacity, s) && w < |s.workers| && s.workers[w].Reporting?
    ensures Balanced(s, Next(capacity, s, ReportError(w, readerReady)),
                     StepFates(capacity, s, ReportError(w, readerReady), email), email)
  {
    ReportersAfter(s.workers, w, Ranging, email);
    CopiesAppended(s.sh.errs, s.workers[w].email, email);
  }

  /** The channel is not closed under a worker that has still to report. */
  lemma StillOpen(s: Sys, w: Worker)
    requires Invariant(s) && w < |s.workers| && s.workers[w].Reporting?
    ensures !s.sh.errsClosed
  {
    assert !s.workers[w].Done?;
    assert !AllDone(s.workers);
  }

  /** Worker `w` took a step that has nothing to do with failures. */
  lemma QuietlyMoved(s: Sys, s': Sys, w: Worker, p: Phase, email: Email)
    requires w < |s.workers| && !s.workers[w].Reporting? && !p.Reporting?
    requires s'.workers == s.workers[w := p] && s'.sh.errs == s.sh.errs
    ensures Unread(s', email) == Unread(s, email)
  {
    ReportersAfter(s.workers, w, p, email);
  }

  lemma TakeBalances(s: Sys, w: Worker, email: Email)
    ensures Unread(DoTake(s, w), email) == Unread(s, email)
  {
    if w < |s.workers| && s.workers[w].Ranging? && DoTake(s, w) != s {
      QuietlyMoved(s, DoTake(s, w), w, DoTake(s, w).workers[w], email);
    }
  }

  lemma CallBalances(s: Sys, w: Worker, email: Email)
    ensures Unread(DoCall(s, w), email) == Unread(s, email)
  {
    if w < |s.workers| && s.workers[w].Got? {
      QuietlyMoved(s, DoCall(s, w), w, Sending(s.workers[w].email), email);
    }
  }

  lemma PushBalances(capacity: nat, s: Sys, t: Thread, to: Option<Worker>, email: Email)
    ensures Unread(DoPush(s, capacity, t, to), email) == Unread(s, email)
  {
    if t in s.readers {
      var (sh, r) := TrySend(s.sh, capacity, s.readers[t], CanHand(s, to));
      var left := s.(sh := sh, readers := s.readers - {t});
      if r.Accepted? && CanHand(s, to) {
        TakeBalances(left.(accepted := s.accepted + [s.readers[t]]), to.value, email);
      }
    }
  }

  lemma StepBalances(capacity: nat, s: Sys, a: Action, email: Email)
    requires Invariant(s) && Capped(capacity, s)
    ensures Balanced(s, Next(capacity, s, a), StepFates(capacity, s, a, email), email)
  {
    match a
    case SenderReturned(w, failed) => ReturnBalances(capacity, s, w, failed, email);
    case ReportError(w, readerReady) =>
      if w < |s.workers| && s.workers[w].Reporting? {
        StillOpen(s, w);
        ReportBalances(capacity, s, w, readerReady, email);
      }
    case Start(n) => ReportersAppended(s.workers, seq(if n < 1 then 1 else n, _ => Ranging), email);
    case Push(t, to) => PushBalances(capacity, s, t, to, email);
    case Take(w) => TakeBalances(s, w, email);
    case CallSender(w) => CallBalances(s, w, email);
    case Advance => AdvanceLeavesErrors(s);
    case _ =>
  }

  lemma {:induction false} BalancedAlong(capacity: nat, s: Sys, run: seq<Action>, email: Email)
    requires Invariant(s) && Capped(capacity, s)
    ensures Balanced(s, Exec(capacity, s, run), RunFates(capacity, s, run, email), email)
    decreases |run|
  {
    if run != [] {
      InvariantKept(capacity, s, run[0]);
      CappedKept(capacity, s, run[0]);
      StepBalances(capacity, s, run[0], email);
      BalancedAlong(capacity, Next(capacity, s, run[0]), run[1..], email);
    }
  }

  /**
   * In every run, and for every e-mail, each failure to send it is accounted
   * for once: about to be reported, in the channel, heard by a reader that
   * waited, read from the channel, or dropped because the channel was full.
   * Nothing else is ever reported.
   */
  lemma FailuresAreConserved(capacity: nat, run: seq<Action>, email: Email)
    ensures
      var s, f := Exec(capacity, Init(), run), RunFates(capacity, Init(), run, email);
      Reporters(s.workers, email) + Copies(s.sh.errs, email) + f.heard + f.dropped + f.read == f.failed
  {
    BalancedAlong(capacity, Init(), run, email);
  }
}
