/** A stop returns once every call of the sender does: its goroutines never wait for each other in a circle. */
module StopProgress {
  import opened Prelude
  import opened BackgroundSending

  /** A step of the stop itself, of a worker, or of a TrySend that holds the read lock. */
  predicate Internal(a: Action) {
    a.Push? || a.Take? || a.CallSender? || a.SenderReturned? || a.ReportError? || a.Advance?
  }

  predicate Stopping(s: Sys) {
    !s.stage.Running? && !s.stage.Finished?
  }

  // ---- what is left to do ----

  function Rank(stage: Stage): nat {
    match stage
    case Running => 9
    case Begun => 8
    case Locked => 7
    case Flagged => 6
    case Shut => 5
    case Unlocked => 4
    case Joined => 3
    case Cancelled => 2
    case Closing => 1
    case Finished => 0
  }

  function Left(p: Phase): nat {
    match p
    case Done => 0
    case Ranging => 1
    case Reporting(_) => 2
    case Sending(_) => 3
    case Got(_, _) => 4
  }

  function LeftIn(workers: seq<Phase>): nat {
    if workers == [] then 0 else Left(workers[0]) + LeftIn(workers[1..])
  }

  /** Until the write lock is taken, each TrySend that holds the read lock may still add an e-mail. */
  function Entering(s: Sys): nat {
    if s.stage.Begun? then 5 * |s.readers| else 0
  }

  function Measure(s: Sys): nat {
    Rank(s.stage) + 4 * |s.sh.queue| + LeftIn(s.workers) + Entering(s)
  }

  lemma {:induction false} LeftAfter(workers: seq<Phase>, w: nat, p: Phase)
    requires w < |workers|
    ensures LeftIn(workers[w := p]) == LeftIn(workers) - Left(workers[w]) + Left(p)
    decreases |workers|
  {
    var rest := workers[1..];
    if w == 0 {
      assert workers[0 := p][1..] == rest;
    } else {
      assert workers[w := p][1..] == rest[w - 1 := p];
      LeftAfter(rest, w - 1, p);
    }
  }

  lemma TakeLowers(s: Sys, w: Worker)
    ensures Measure(DoTake(s, w)) < Measure(s) || DoTake(s, w) == s
    ensures w < |s.workers| && s.workers[w].Ranging? && s.sh.queue != [] ==> Measure(DoTake(s, w)) == Measure(s) - 1
  {
    if w < |s.workers| {
      if s.sh.queue != [] {
        LeftAfter(s.workers, w, Got(s.taken, s.sh.queue[0]));
      }
      LeftAfter(s.workers, w, Done);
    }
  }

  lemma CallLowers(s: Sys, w: Worker)
    ensures Measure(DoCall(s, w)) < Measure(s) || DoCall(s, w) == s
  {
    if w < |s.workers| && s.workers[w].Got? {
      LeftAfter(s.workers, w, Sending(s.workers[w].email));
    }
  }

  lemma OneReaderLess(readers: map<Thread, Email>, t: Thread)
    requires t in readers
    ensures |readers - {t}| == |readers| - 1
  {
    assert (readers - {t}).Keys == readers.Keys - {t};
  }

  /** A TrySend that was inside before the lock; once the flag is set it adds nothing. */
  lemma PushLowers(s: Sys, capacity: nat, t: Thread, to: Option<Worker>)
    requires Invariant(s) && Stopping(s)
    ensures Measure(DoPush(s, capacity, t, to)) <= Measure(s)
    ensures s.stage.Begun? && t in s.readers ==> Measure(DoPush(s, capacity, t, to)) < Measure(s)
  {
    if t in s.readers {
      OneReaderLess(s.readers, t);
      if s.stage.Begun? && TrySend(s.sh, capacity, s.readers[t], CanHand(s, to)).1.Accepted? && CanHand(s, to) {
        var left := s.(sh := TrySend(s.sh, capacity, s.readers[t], true).0, readers := s.readers - {t});
        TakeLowers(left.(accepted := s.accepted + [s.readers[t]]), to.value);
      }
    }
  }

  lemma WorkerLowers(capacity: nat, s: Sys, a: Action)
    requires a.SenderReturned? || a.ReportError?
    ensures Measure(Next(capacity, s, a)) < Measure(s) || Next(capacity, s, a) == s
  {
    if a.w < |s.workers| {
      LeftAfter(s.workers, a.w, Ranging);
      if s.workers[a.w].Sending? {
        LeftAfter(s.workers, a.w, Reporting(s.workers[a.w].email));
      }
    }
  }

  /** No step of theirs takes a stop further from its end. */
  lemma StepLowers(capacity: nat, s: Sys, a: Action)
    requires Invariant(s) && Stopping(s) && Internal(a)
    ensures Measure(Next(capacity, s, a)) <= Measure(s)
  {
    match a
    case Push(t, to) => PushLowers(s, capacity, t, to);
    case Take(w) => TakeLowers(s, w);
    case CallSender(w) => CallLowers(s, w);
    case SenderReturned(_, _) => WorkerLowers(capacity, s, a);
    case ReportError(_, _) => WorkerLowers(capacity, s, a);
    case Advance =>
  }

  // ---- somebody can always go on ----

  ghost predicate Closer(capacity: nat, s: Sys, a: Action) {
    Internal(a) && Measure(Next(capacity, s, a)) < Measure(s)
  }

  /** A worker that is not done goes on: the queue is closed by now. */
  lemma WorkerGoesOn(capacity: nat, s: Sys, w: Worker) returns (a: Action)
    requires w < |s.workers| && !s.workers[w].Done? && s.sh.queueClosed
    ensures Closer(capacity, s, a)
  {
    match s.workers[w]
    case Ranging =>
      a := Take(w);
      TakeLowers(s, w);
      assert DoTake(s, w).workers[w] != Ranging;
    case Got(_, _) =>
      a := CallSender(w);
      CallLowers(s, w);
      assert DoCall(s, w).workers[w].Sending?;
    case Sending(_) =>
      a := SenderReturned(w, false);
      WorkerLowers(capacity, s, a);
      assert Next(capacity, s, a).workers[w].Ranging?;
    case Reporting(_) =>
      a := ReportError(w, false);
      WorkerLowers(capacity, s, a);
      assert Next(capacity, s, a).workers[w].Ranging?;
  }

  lemma SomeoneGoesOn(capacity: nat, s: Sys) returns (a: Action)
    requires Invariant(s) && Stopping(s)
    ensures Closer(capacity, s, a)
  {
    if s.stage.Begun? && s.readers != map[] {
      var t :| t in s.readers;
      a := Push(t, None);
      PushLowers(s, capacity, t, None);
    } else if ((s.stage.Unlocked? && !s.now) || s.stage.Cancelled?) && !AllDone(s.workers) {
      var w: nat :| w < |s.workers| && !s.workers[w].Done?;
      a := WorkerGoesOn(capacity, s, w);
    } else {
      a := Advance;
    }
  }

  // ---- the results ----

  /** In every reachable state of a stop that has not returned, some step is possible and lowers the measure. */
  lemma NeverStuck(capacity: nat, run: seq<Action>)
    ensures var s := Exec(capacity, Init(), run);
            Stopping(s) ==> exists a :: Internal(a) && Measure(Next(capacity, s, a)) < Measure(s)
  {
    var s := Exec(capacity, Init(), run);
    InvariantAlong(capacity, Init(), run);
    if Stopping(s) {
      var a := SomeoneGoesOn(capacity, s);
      assert Closer(capacity, s, a);
    }
  }

  /** The steps of a run that bring the stop closer to its end. */
  function Steps(capacity: nat, s: Sys, run: seq<Action>): nat
    decreases |run|
  {
    if run == [] then 0
    else
      var s' := Next(capacity, s, run[0]);
      (if Measure(s') < Measure(s) then 1 else 0) + Steps(capacity, s', run[1..])
  }

  /** The calls of TrySend that come before the stop's lock. */
  function Entries(capacity: nat, s: Sys, run: seq<Action>): nat
    decreases |run|
  {
    if run == [] then 0
    else
      (if s.stage.Begun? && run[0].EnterTrySend? then 1 else 0) + Entries(capacity, Next(capacity, s, run[0]), run[1..])
  }

  lemma OthersRaise(capacity: nat, s: Sys, a: Action)
    requires !s.stage.Running? && !Internal(a)
    ensures Measure(Next(capacity, s, a)) <= Measure(s) + if s.stage.Begun? && a.EnterTrySend? then 5 else 0
  {
    match a
    case EnterTrySend(t, email) =>
      if t !in s.readers {
        assert s.readers[t := email].Keys == s.readers.Keys + {t};
      }
    case _ =>
  }

  lemma FinishedIsStill(capacity: nat, s: Sys, a: Action)
    requires Invariant(s) && s.stage.Finished? && Internal(a)
    ensures Measure(Next(capacity, s, a)) <= Measure(s)
  {
    match a
    case Push(t, to) =>
    case Take(w) => TakeLowers(s, w);
    case CallSender(w) => CallLowers(s, w);
    case SenderReturned(_, _) => WorkerLowers(capacity, s, a);
    case ReportError(_, _) => WorkerLowers(capacity, s, a);
    case Advance =>
  }

  lemma NeverRestarts(capacity: nat, s: Sys, a: Action)
    requires !s.stage.Running?
    ensures !Next(capacity, s, a).stage.Running?
  {
    match a
    case Push(t, to) => case Take(w) => case CallSender(w) => case Advance => case _ =>
  }

  /** Once a stop has begun only so many steps are left, five more for each TrySend that still gets in before it. */
  lemma {:induction false} StepsAreBounded(capacity: nat, s: Sys, more: seq<Action>)
    requires Invariant(s) && !s.stage.Running?
    ensures Steps(capacity, s, more) + Measure(Exec(capacity, s, more)) <= Measure(s) + 5 * Entries(capacity, s, more)
    decreases |more|
  {
    if more != [] {
      var a := more[0];
      if !Internal(a) {
        OthersRaise(capacity, s, a);
      } else if Stopping(s) {
        StepLowers(capacity, s, a);
      } else {
        FinishedIsStill(capacity, s, a);
      }
      InvariantKept(capacity, s, a);
      NeverRestarts(capacity, s, a);
      StepsAreBounded(capacity, Next(capacity, s, a), more[1..]);
    }
  }

  lemma {:induction false} ReturnsFrom(capacity: nat, s: Sys) returns (more: seq<Action>)
    requires Invariant(s) && !s.stage.Running?
    ensures Exec(capacity, s, more).stage.Finished? && |more| <= Measure(s)
    ensures forall i :: 0 <= i < |more| ==> Internal(more[i])
    decreases Measure(s)
  {
    if s.stage.Finished? {
      more := [];
    } else {
      var a := SomeoneGoesOn(capacity, s);
      InvariantKept(capacity, s, a);
      NeverRestarts(capacity, s, a);
      var rest := ReturnsFrom(capacity, Next(capacity, s, a));
      more := [a] + rest;
      assert more[1..] == rest;
    }
  }

  /** From every reachable state of a stop, the goroutines can bring it to its return. */
  lemma StopReturns(capacity: nat, run: seq<Action>) returns (more: seq<Action>)
    requires !Exec(capacity, Init(), run).stage.Running?
    ensures Exec(capacity, Init(), run + more).stage.Finished?
    ensures forall i :: 0 <= i < |more| ==> Internal(more[i])
  {
    InvariantAlong(capacity, Init(), run);
    more := ReturnsFrom(capacity, Exec(capacity, Init(), run));
    FoldSplit((s: Sys, a: Action) => Next(capacity, s, a), Init(), run, more);
  }
}
