/**
 * The background sender: a queue, a pool of workers, and two ways to stop.
 *
 * `Shared` is what the goroutines see; `Sys` adds where each of them stands
 * and two histories, the e-mails TrySend accepted and the calls made to the
 * wrapped sender.
 */
module BackgroundSending {
  import opened Prelude

  type Email = string
  type Thread = nat
  type Worker = nat

  /** `panicked` records a send on, or a second close of, a closed channel. */
  datatype Shared = Shared(
    queue: seq<Email>,
    queueClosed: bool,
    stopped: bool,
    cancelled: bool,
    errs: seq<Email>,
    errsClosed: bool,
    panicked: bool)

  datatype Outcome = Accepted | SenderStopped | QueueFull | Crashed

  /**
   * The body of TrySend under the read lock. `handTo` says that a worker is
   * blocked receiving, so that the send passes the e-mail straight to it; that
   * is the only way in when the queue has no buffer.
   */
  function TrySend(sh: Shared, capacity: nat, email: Email, handTo: bool): (Shared, Outcome) {
    if sh.stopped then (sh, SenderStopped)
    else if sh.queueClosed then (sh.(panicked := true), Crashed)
    else if handTo || |sh.queue| < capacity then (sh.(queue := sh.queue + [email]), Accepted)
    else (sh, QueueFull)
  }

  function CloseQueue(sh: Shared): Shared {
    if sh.queueClosed then sh.(panicked := true) else sh.(queueClosed := true)
  }

  function CloseErrs(sh: Shared): Shared {
    if sh.errsClosed then sh.(panicked := true) else sh.(errsClosed := true)
  }

  datatype Delivery = Heard | Buffered | Dropped | Lost

  /**
   * A worker's non-blocking report. A reader blocked on the channel hears it at
   * once, and is the only way out when the channel has no buffer; a full
   * channel drops it.
   */
  function Report(sh: Shared, capacity: nat, email: Email, readerReady: bool): (Shared, Delivery) {
    if sh.errsClosed then (sh.(panicked := true), Lost)
    else if readerReady && sh.errs == [] then (sh, Heard)
    else if |sh.errs| < capacity then (sh.(errs := sh.errs + [email]), Buffered)
    else (sh, Dropped)
  }

  /** A worker, between two steps. The number is the e-mail's place among those accepted. */
  datatype Phase =
    | Ranging
    | Got(k: nat, email: Email)
    | Sending(email: Email)
    | Reporting(email: Email)
    | Done

  /** How far the body of the one Stop or StopNow has come. */
  datatype Stage = Running | Begun | Locked | Flagged | Shut | Unlocked | Joined | Cancelled | Closing | Finished

  /** One call of the wrapped sender; `live` says its context was not cancelled. */
  datatype Call = Call(k: nat, email: Email, live: bool)

  datatype Sys = Sys(
    sh: Shared,
    readers: map<Thread, Email>,   // inside TrySend, holding the read lock
    workers: seq<Phase>,
    stage: Stage,
    now: bool,                     // StopNow rather than Stop
    accepted: seq<Email>,
    taken: nat,                    // how many the workers have received
    calls: seq<Call>)

  function Init(): Sys {
    Sys(Shared([], false, false, false, [], false, false), map[], [], Running, false, [], 0, [])
  }

  datatype Action =
    | Start(n: int)
    | EnterTrySend(t: Thread, email: Email)
    | Push(t: Thread, to: Option<Worker>)
    | Take(w: Worker)
    | CallSender(w: Worker)
    | SenderReturned(w: Worker, failed: bool)
    | ReportError(w: Worker, readerReady: bool)
    | ReadError
    | BeginStop(now: bool)
    | Advance

  predicate WriteLocked(stage: Stage) {
    stage.Locked? || stage.Flagged? || stage.Shut?
  }

  predicate AllDone(workers: seq<Phase>) {
    forall w :: 0 <= w < |workers| ==> workers[w].Done?
  }

  function Become(s: Sys, w: Worker, p: Phase): Sys
    requires w < |s.workers|
  {
    s.(workers := s.workers[w := p])
  }

  predicate CanHand(s: Sys, to: Option<Worker>) {
    to.Some? && to.value < |s.workers| && s.workers[to.value].Ranging? && s.sh.queue == []
  }

  function DoPush(s: Sys, capacity: nat, t: Thread, to: Option<Worker>): Sys {
    if t !in s.readers then s else
    var email := s.readers[t];
    var (sh, r) := TrySend(s.sh, capacity, email, CanHand(s, to));
    var left := s.(sh := sh, readers := s.readers - {t});
    if !r.Accepted? then
      left
    else
      var more := left.(accepted := s.accepted + [email]);
      if CanHand(s, to) then DoTake(more, to.value) else more
  }

  /** `range` over the queue: the next e-mail, or the end once it is closed and empty. */
  function DoTake(s: Sys, w: Worker): Sys {
    if w >= |s.workers| || !s.workers[w].Ranging? then s
    else if s.sh.queue != [] then
      Become(s, w, Got(s.taken, s.sh.queue[0])).(sh := s.sh.(queue := s.sh.queue[1..]), taken := s.taken + 1)
    else if s.sh.queueClosed then
      Become(s, w, Done)
    else s
  }

  function DoCall(s: Sys, w: Worker): Sys {
    if w >= |s.workers| || !s.workers[w].Got? then s else
    var p := s.workers[w];
    Become(s, w, Sending(p.email)).(calls := s.calls + [Call(p.k, p.email, !s.sh.cancelled)])
  }

  function DoAdvance(s: Sys): Sys {
    match s.stage
    case Begun => if s.readers == map[] then s.(stage := Locked) else s
    case Locked => s.(stage := Flagged, sh := s.sh.(stopped := true))
    case Flagged => s.(stage := Shut, sh := CloseQueue(s.sh))
    case Shut => s.(stage := Unlocked)
    case Unlocked =>
      if s.now then s.(stage := Cancelled, sh := s.sh.(cancelled := true))
      else if AllDone(s.workers) then s.(stage := Joined)
      else s
    case Joined => s.(stage := Closing, sh := s.sh.(cancelled := true))
    case Cancelled => if AllDone(s.workers) then s.(stage := Closing) else s
    case Closing => s.(stage := Finished, sh := CloseErrs(s.sh))
    case _ => s
  }

  /** An action that is not enabled leaves the system as it is. */
  function Next(capacity: nat, s: Sys, a: Action): Sys {
    match a
    case Start(n) =>
      if s.stage.Running? then s.(workers := s.workers + seq(if n < 1 then 1 else n, _ => Ranging)) else s
    case EnterTrySend(t, email) =>
      if t in s.readers || WriteLocked(s.stage) then s else s.(readers := s.readers[t := email])
    case Push(t, to) => DoPush(s, capacity, t, to)
    case Take(w) => DoTake(s, w)
    case CallSender(w) => DoCall(s, w)
    case SenderReturned(w, failed) =>
      if w < |s.workers| && s.workers[w].Sending? then
        Become(s, w, if failed then Reporting(s.workers[w].email) else Ranging)
      else s
    case ReportError(w, readerReady) =>
      if w < |s.workers| && s.workers[w].Reporting? then
        Become(s, w, Ranging).(sh := Report(s.sh, capacity, s.workers[w].email, readerReady).0)
      else s
    case ReadError => if s.sh.errs == [] then s else s.(sh := s.sh.(errs := s.sh.errs[1..]))
    case BeginStop(now) => if s.stage.Running? then s.(stage := Begun, now := now) else s
    case Advance => DoAdvance(s)
  }

  function Exec(capacity: nat, s: Sys, run: seq<Action>): Sys {
    Fold((s: Sys, a: Action) => Next(capacity, s, a), s, run)
  }

  // ---- invariants ----

  /** The flags are exactly what the stage says. */
  ghost predicate Staged(s: Sys) {
    var late := s.stage.Unlocked? || s.stage.Joined? || s.stage.Cancelled? || s.stage.Closing? || s.stage.Finished?;
    && (s.sh.stopped <==> s.stage.Flagged? || s.stage.Shut? || late)
    && (s.sh.queueClosed <==> s.stage.Shut? || late)
    && (s.sh.cancelled <==> s.stage.Cancelled? || s.stage.Closing? || s.stage.Finished?)
    && (s.sh.errsClosed <==> s.stage.Finished?)
    && (s.stage.Running? || s.stage.Joined? ==> !s.now)
    && (s.stage.Cancelled? ==> s.now)
    && (WriteLocked(s.stage) ==> s.readers == map[])
    && (s.stage.Joined? || s.stage.Closing? || s.stage.Finished? ==> AllDone(s.workers))
    && (forall w :: 0 <= w < |s.workers| && s.workers[w].Done? ==> s.sh.queueClosed && s.sh.queue == [])
    && !s.sh.panicked
  }

  function Held(p: Phase): nat { if p.Got? then 1 else 0 }

  function InHands(workers: seq<Phase>): nat {
    if workers == [] then 0 else Held(workers[0]) + InHands(workers[1..])
  }

  predicate Called(s: Sys, k: nat) {
    exists i :: 0 <= i < |s.calls| && s.calls[i].k == k
  }

  predicate Holding(s: Sys, k: nat) {
    exists w :: 0 <= w < |s.workers| && s.workers[w].Got? && s.workers[w].k == k
  }

  /** The queue is the accepted e-mails not yet taken, and every taken one is in one worker's hands or in one call. */
  ghost predicate Ledger(s: Sys) {
    && s.taken <= |s.accepted| && s.sh.queue == s.accepted[s.taken..]
    && s.taken == InHands(s.workers) + |s.calls|
    && (forall i :: 0 <= i < |s.calls| ==>
          s.calls[i].k < s.taken && s.calls[i].email == s.accepted[s.calls[i].k])
    && (forall i, j :: 0 <= i < j < |s.calls| ==> s.calls[i].k != s.calls[j].k)
    && (forall w :: 0 <= w < |s.workers| && s.workers[w].Got? ==>
          && s.workers[w].k < s.taken && s.workers[w].email == s.accepted[s.workers[w].k]
          && !Called(s, s.workers[w].k))
    && (forall v, w :: 0 <= v < w < |s.workers| && s.workers[v].Got? && s.workers[w].Got? ==>
          s.workers[v].k != s.workers[w].k)
    && (forall k: nat :: k < s.taken ==> Called(s, k) || Holding(s, k))
  }

  /** Without StopNow no call sees a cancelled context. */
  ghost predicate AllLive(s: Sys) {
    !s.now ==> forall i :: 0 <= i < |s.calls| ==> s.calls[i].live
  }

  ghost predicate Invariant(s: Sys) {
    Staged(s) && Ledger(s) && AllLive(s)
  }

  lemma {:induction false} HandsAfter(workers: seq<Phase>, w: nat, p: Phase)
    requires w < |workers|
    ensures InHands(workers[w := p]) == InHands(workers) - Held(workers[w]) + Held(p)
  {
    if w == 0 {
      assert workers[0 := p][1..] == workers[1..];
    } else {
      assert workers[w := p][1..] == workers[1..][w - 1 := p];
      HandsAfter(workers[1..], w - 1, p);
    }
  }

  lemma {:induction false} HandsAppended(workers: seq<Phase>, more: seq<Phase>)
    requires forall i :: 0 <= i < |more| ==> more[i].Ranging?
    ensures InHands(workers + more) == InHands(workers)
    decreases |workers|, |more|
  {
    if workers != [] {
      assert (workers + more)[1..] == workers[1..] + more;
      HandsAppended(workers[1..], more);
    } else {
      assert workers + more == more;
      if more != [] {
        assert [] + more[1..] == more[1..];
        HandsAppended([], more[1..]);
      }
    }
  }

  /** Nothing about the ledger changed. */
  lemma SameLedger(s: Sys, s': Sys)
    requires Ledger(s)
    requires s'.accepted == s.accepted && s'.taken == s.taken && s'.calls == s.calls
    requires s'.sh.queue == s.sh.queue && InHands(s'.workers) == InHands(s.workers)
    requires |s.workers| <= |s'.workers|
    requires forall w :: 0 <= w < |s.workers| && s.workers[w].Got? ==> s'.workers[w] == s.workers[w]
    requires forall w ::
      0 <= w < |s'.workers| && s'.workers[w].Got? ==> w < |s.workers| && s'.workers[w] == s.workers[w]
    ensures Ledger(s')
  {
    forall k: nat | k < s'.taken ensures Called(s', k) || Holding(s', k) {
      if Called(s, k) {
        var i :| 0 <= i < |s.calls| && s.calls[i].k == k;
        assert s'.calls[i].k == k;
      } else {
        var w :| 0 <= w < |s.workers| && s.workers[w].Got? && s.workers[w].k == k;
        assert s'.workers[w].Got? && s'.workers[w].k == k;
      }
    }
    forall w | 0 <= w < |s'.workers| && s'.workers[w].Got? ensures !Called(s', s'.workers[w].k) {
      assert !Called(s, s.workers[w].k);
    }
  }

  /** Worker `w` received the head of the queue. */
  lemma Received(s: Sys, s': Sys, w: Worker)
    requires Ledger(s) && w < |s.workers| && s.workers[w].Ranging? && s.sh.queue != []
    requires s'.workers == s.workers[w := Got(s.taken, s.sh.queue[0])]
    requires s'.sh.queue == s.sh.queue[1..] && s'.taken == s.taken + 1
    requires s'.accepted == s.accepted && s'.calls == s.calls
    ensures Ledger(s')
  {
    HandsAfter(s.workers, w, s'.workers[w]);
    assert s.sh.queue[0] == s.accepted[s.taken];
    forall k: nat | k < s'.taken ensures Called(s', k) || Holding(s', k) {
      if k == s.taken {
        assert s'.workers[w].k == k;
      } else if Called(s, k) {
        var i :| 0 <= i < |s.calls| && s.calls[i].k == k;
        assert s'.calls[i].k == k;
      } else {
        var v :| 0 <= v < |s.workers| && s.workers[v].Got? && s.workers[v].k == k;
        assert s'.workers[v].Got? && s'.workers[v].k == k;
      }
    }
    forall v | 0 <= v < |s'.workers| && s'.workers[v].Got? ensures !Called(s', s'.workers[v].k) {
      if v != w { assert !Called(s, s.workers[v].k); }
    }
  }

  lemma TakeKeeps(s: Sys, w: Worker)
    requires Ledger(s)
    ensures Ledger(DoTake(s, w))
  {
    var s' := DoTake(s, w);
    if w < |s.workers| && s.workers[w].Ranging? {
      if s.sh.queue != [] {
        Received(s, s', w);
      } else {
        HandsAfter(s.workers, w, s'.workers[w]);
        SameLedger(s, s');
      }
    }
  }

  lemma PushKeeps(s: Sys, capacity: nat, t: Thread, to: Option<Worker>)
    requires Ledger(s)
    ensures Ledger(DoPush(s, capacity, t, to))
  {
    if t in s.readers {
      var email := s.readers[t];
      var (sh, r) := TrySend(s.sh, capacity, email, CanHand(s, to));
      var left := s.(sh := sh, readers := s.readers - {t});
      if r.Accepted? {
        var more := left.(accepted := s.accepted + [email]);
        assert more.accepted[more.taken..] == s.accepted[s.taken..] + [email];
        LedgerGrows(s, more);
        if CanHand(s, to) { TakeKeeps(more, to.value); }
      } else {
        SameLedger(s, left);
      }
    }
  }

  lemma LedgerGrows(s: Sys, s': Sys)
    requires Ledger(s)
    requires s'.workers == s.workers && s'.taken == s.taken && s'.calls == s.calls
    requires s.accepted <= s'.accepted && s'.sh.queue == s'.accepted[s'.taken..]
    ensures Ledger(s')
  {
    forall k: nat ensures Called(s', k) == Called(s, k) && Holding(s', k) == Holding(s, k) {
    }
  }

  lemma OneCallMore(s: Sys, s': Sys, call: Call)
    requires s'.calls == s.calls + [call]
    ensures forall k: nat :: Called(s', k) <==> Called(s, k) || k == call.k
  {
    forall k: nat ensures Called(s', k) <==> Called(s, k) || k == call.k {
      assert s'.calls[|s.calls|].k == call.k;
      if Called(s, k) {
        var i :| 0 <= i < |s.calls| && s.calls[i].k == k;
        assert s'.calls[i].k == k;
      }
    }
  }

  lemma CallKeeps(s: Sys, w: Worker)
    requires Ledger(s)
    ensures Ledger(DoCall(s, w))
  {
    var s' := DoCall(s, w);
    if w < |s.workers| && s.workers[w].Got? {
      var k0 := s.workers[w].k;
      HandsAfter(s.workers, w, s'.workers[w]);
      assert !Called(s, k0);
      OneCallMore(s, s', s'.calls[|s.calls|]);
      forall k: nat | k < s'.taken ensures Called(s', k) || Holding(s', k) {
        if !Called(s', k) {
          var v :| 0 <= v < |s.workers| && s.workers[v].Got? && s.workers[v].k == k;
          assert s'.workers[v].Got? && s'.workers[v].k == k;
        }
      }
    }
  }

  lemma StagedInTake(capacity: nat, s: Sys, a: Action)
    requires Invariant(s) && a.Take?
    ensures Staged(Next(capacity, s, a)) && AllLive(Next(capacity, s, a))
  {
    var s' := Next(capacity, s, a);
    if a.w < |s.workers| {
      assert forall v :: 0 <= v < |s.workers| && v != a.w ==> s'.workers[v] == s.workers[v];
      if AllDone(s.workers) {
        assert s.workers[a.w].Done?;
      }
    }
  }

  lemma StagedInCall(capacity: nat, s: Sys, a: Action)
    requires Invariant(s) && a.CallSender?
    ensures Staged(Next(capacity, s, a)) && AllLive(Next(capacity, s, a))
  {
    var s' := Next(capacity, s, a);
    if a.w < |s.workers| {
      assert forall v :: 0 <= v < |s.workers| && v != a.w ==> s'.workers[v] == s.workers[v];
      if AllDone(s.workers) {
        assert s.workers[a.w].Done?;
      }
    }
  }

  lemma StagedInReturn(capacity: nat, s: Sys, a: Action)
    requires Invariant(s) && (a.SenderReturned? || a.ReportError?)
    ensures Staged(Next(capacity, s, a)) && AllLive(Next(capacity, s, a))
  {
    var s' := Next(capacity, s, a);
    if a.w < |s.workers| {
      assert forall v :: 0 <= v < |s.workers| && v != a.w ==> s'.workers[v] == s.workers[v];
      if AllDone(s.workers) {
        assert s.workers[a.w].Done?;
      }
    }
  }

  lemma StagedInTrySend(capacity: nat, s: Sys, t: Thread, to: Option<Worker>)
    requires Invariant(s)
    ensures Staged(DoPush(s, capacity, t, to)) && AllLive(DoPush(s, capacity, t, to))
  {
    if t in s.readers {
      assert !WriteLocked(s.stage);
      if CanHand(s, to) {
        assert !AllDone(s.workers) by { assert !s.workers[to.value].Done?; }
      }
    }
  }

  lemma StagedOutside(capacity: nat, s: Sys, a: Action)
    requires Invariant(s) && (a.Start? || a.EnterTrySend? || a.ReadError? || a.BeginStop?)
    ensures Staged(Next(capacity, s, a)) && AllLive(Next(capacity, s, a))
  {
  }

  lemma StagedInStop(s: Sys)
    requires Invariant(s)
    ensures Staged(DoAdvance(s)) && AllLive(DoAdvance(s))
  {
  }

  lemma StagedKept(capacity: nat, s: Sys, a: Action)
    requires Invariant(s)
    ensures Staged(Next(capacity, s, a)) && AllLive(Next(capacity, s, a))
  {
    match a
    case Push(t, to) => StagedInTrySend(capacity, s, t, to);
    case Advance => StagedInStop(s);
    case Take(_) => StagedInTake(capacity, s, a);
    case CallSender(_) => StagedInCall(capacity, s, a);
    case SenderReturned(_, _) => StagedInReturn(capacity, s, a);
    case ReportError(_, _) => StagedInReturn(capacity, s, a);
    case _ => StagedOutside(capacity, s, a);
  }

  lemma LedgerInReturn(capacity: nat, s: Sys, a: Action)
    requires Ledger(s) && (a.SenderReturned? || a.ReportError?)
    ensures Ledger(Next(capacity, s, a))
  {
    var s' := Next(capacity, s, a);
    if a.w < |s.workers| {
      HandsAfter(s.workers, a.w, s'.workers[a.w]);
    }
    SameLedger(s, s');
  }

  lemma LedgerInStart(capacity: nat, s: Sys, a: Action)
    requires Ledger(s) && a.Start?
    ensures Ledger(Next(capacity, s, a))
  {
    HandsAppended(s.workers, seq(if a.n < 1 then 1 else a.n, _ => Ranging));
    SameLedger(s, Next(capacity, s, a));
  }

  lemma LedgerInStop(capacity: nat, s: Sys, a: Action)
    requires Ledger(s) && (a.BeginStop? || a.Advance?)
    ensures Ledger(Next(capacity, s, a))
  {
    var s' := Next(capacity, s, a);
    if a.Advance? {
      AdvanceLeavesMail(s);
    }
    SameLedger(s, s');
  }

  lemma AdvanceLeavesMail(s: Sys)
    ensures
      var s' := DoAdvance(s);
      && s'.accepted == s.accepted && s'.taken == s.taken && s'.calls == s.calls
      && s'.sh.queue == s.sh.queue && s'.workers == s.workers
  {
    match s.stage
    case Begun => if s.readers == map[] {}
    case Unlocked => if s.now {} else if AllDone(s.workers) {}
    case Cancelled => if AllDone(s.workers) {}
    case _ =>
  }

  lemma LedgerOutside(capacity: nat, s: Sys, a: Action)
    requires Ledger(s) && (a.EnterTrySend? || a.ReadError?)
    ensures Ledger(Next(capacity, s, a))
  {
    SameLedger(s, Next(capacity, s, a));
  }

  lemma InvariantKept(capacity: nat, s: Sys, a: Action)
    requires Invariant(s)
    ensures Invariant(Next(capacity, s, a))
  {
    StagedKept(capacity, s, a);
    match a
    case Push(t, to) => PushKeeps(s, capacity, t, to);
    case Take(w) => TakeKeeps(s, w);
    case CallSender(w) => CallKeeps(s, w);
    case SenderReturned(_, _) => LedgerInReturn(capacity, s, a);
    case ReportError(_, _) => LedgerInReturn(capacity, s, a);
    case Start(_) => LedgerInStart(capacity, s, a);
    case BeginStop(_) => LedgerInStop(capacity, s, a);
    case Advance => LedgerInStop(capacity, s, a);
    case _ => LedgerOutside(capacity, s, a);
  }

  lemma {:induction false} InvariantAlong(capacity: nat, s: Sys, run: seq<Action>)
    requires Invariant(s)
    ensures Invariant(Exec(capacity, s, run))
    decreases |run|
  {
    if run != [] {
      InvariantKept(capacity, s, run[0]);
      InvariantAlong(capacity, Next(capacity, s, run[0]), run[1..]);
    }
  }

  // ---- the results ----

  /** No run sends on a closed channel or closes one twice. */
  lemma NeverPanics(capacity: nat, run: seq<Action>)
    ensures !Exec(capacity, Init(), run).sh.panicked
  {
    InvariantAlong(capacity, Init(), run);
  }

  predicate HandedOver(s: Sys, k: nat)
    requires k < |s.accepted|
  {
    exists i :: 0 <= i < |s.calls| && s.calls[i].k == k && s.calls[i].email == s.accepted[k]
  }

  predicate InHand(s: Sys, k: nat)
    requires k < |s.accepted|
  {
    exists w :: 0 <= w < |s.workers| && s.workers[w].Got? && s.workers[w].k == k && s.workers[w].email == s.accepted[k]
  }

  predicate Queued(s: Sys, k: nat)
    requires k < |s.accepted|
  {
    0 <= k - s.taken < |s.sh.queue| && s.sh.queue[k - s.taken] == s.accepted[k]
  }

  /** Accepted e-mails are those queued, in order, those in a worker's hands and those handed to the sender. */
  lemma NothingIsLost(capacity: nat, run: seq<Action>)
    ensures var s := Exec(capacity, Init(), run);
            && |s.accepted| == |s.sh.queue| + InHands(s.workers) + |s.calls|
            && (forall k: nat :: k < |s.accepted| ==> HandedOver(s, k) || InHand(s, k) || Queued(s, k))
  {
    InvariantAlong(capacity, Init(), run);
    var s := Exec(capacity, Init(), run);
    forall k: nat | k < |s.accepted| ensures HandedOver(s, k) || InHand(s, k) || Queued(s, k) {
      if k < s.taken {
        assert Called(s, k) || Holding(s, k);
      }
    }
  }

  /** When a stop returns and a worker was ever started, each accepted e-mail was handed over exactly once. */
  lemma StopDeliversExactlyOnce(capacity: nat, run: seq<Action>)
    requires Exec(capacity, Init(), run).stage.Finished? && Exec(capacity, Init(), run).workers != []
    ensures var s := Exec(capacity, Init(), run);
            && |s.calls| == |s.accepted|
            && (forall k: nat :: k < |s.accepted| ==> HandedOver(s, k))
            && (forall i, j :: 0 <= i < j < |s.calls| ==> s.calls[i].k != s.calls[j].k)
  {
    InvariantAlong(capacity, Init(), run);
    var s := Exec(capacity, Init(), run);
    assert s.workers[0].Done?;
    assert s.sh.queue == [];
    forall k: nat | k < |s.accepted|
      ensures HandedOver(s, k)
    {
      assert Called(s, k) || Holding(s, k);
      var i :| 0 <= i < |s.calls| && s.calls[i].k == k;
      assert s.calls[i].email == s.accepted[s.calls[i].k];
    }
    NoHands(s.workers);
  }

  lemma {:induction false} NoHands(workers: seq<Phase>)
    requires AllDone(workers)
    ensures InHands(workers) == 0
  {
    if workers != [] {
      NoHands(workers[1..]);
    }
  }

  /** Stop, unlike StopNow, cancels the context only after every send has returned. */
  lemma StopKeepsTheContextLive(capacity: nat, run: seq<Action>)
    requires !Exec(capacity, Init(), run).now
    ensures var s := Exec(capacity, Init(), run);
            && (forall i :: 0 <= i < |s.calls| ==> s.calls[i].live)
            && (forall w :: 0 <= w < |s.workers| && (s.workers[w].Got? || s.workers[w].Sending?) ==> !s.sh.cancelled)
            && (s.sh.cancelled ==> AllDone(s.workers))
  {
    InvariantAlong(capacity, Init(), run);
  }

  /** Calls already made are never changed; those made once the context is cancelled see it cancelled. */
  ghost predicate LateCallsAreDead(s: Sys, s': Sys) {
    && s.calls <= s'.calls && (s.sh.cancelled ==> s'.sh.cancelled)
    && (s.sh.cancelled ==> forall i :: |s.calls| <= i < |s'.calls| ==> !s'.calls[i].live)
  }

  lemma LateStep(capacity: nat, s: Sys, a: Action)
    ensures LateCallsAreDead(s, Next(capacity, s, a))
  {
    match a
    case Push(t, to) => PushCallsNothing(s, capacity, t, to);
    case Take(w) => TakeCallsNothing(s, w);
    case CallSender(w) =>
    case Advance =>
    case _ =>
  }

  lemma TakeCallsNothing(s: Sys, w: Worker)
    ensures DoTake(s, w).calls == s.calls && DoTake(s, w).sh.cancelled == s.sh.cancelled
  {
  }

  lemma PushCallsNothing(s: Sys, capacity: nat, t: Thread, to: Option<Worker>)
    ensures DoPush(s, capacity, t, to).calls == s.calls && DoPush(s, capacity, t, to).sh.cancelled == s.sh.cancelled
  {
  }

  lemma {:induction false} LateAlong(capacity: nat, s: Sys, run: seq<Action>)
    ensures LateCallsAreDead(s, Exec(capacity, s, run))
    decreases |run|
  {
    if run != [] {
      LateStep(capacity, s, run[0]);
      LateAlong(capacity, Next(capacity, s, run[0]), run[1..]);
    }
  }

  /** After StopNow has cancelled, whatever is still queued reaches the sender with a cancelled context. */
  lemma StopNowCancelsTheRest(capacity: nat, run: seq<Action>, more: seq<Action>)
    requires Exec(capacity, Init(), run).sh.cancelled
    ensures var s, s' := Exec(capacity, Init(), run), Exec(capacity, Init(), run + more);
            && s.calls <= s'.calls
            && (forall i :: |s.calls| <= i < |s'.calls| ==> !s'.calls[i].live)
  {
    FoldSplit((s: Sys, a: Action) => Next(capacity, s, a), Init(), run, more);
    LateAlong(capacity, Exec(capacity, Init(), run), more);
  }

  // ---- the object ----

  class Sender {
    const capacity: nat
    var queue: seq<Email>
    var queueClosed: bool
    var stopped: bool
    var cancelled: bool
    var errs: seq<Email>
    var errsClosed: bool
    ghost var panicked: bool

    ghost function View(): Shared
      reads this
    {
      Shared(queue, queueClosed, stopped, cancelled, errs, errsClosed, panicked)
    }

    /** A negative buffer size counts as none. */
    constructor (bufferSize: int)
      ensures View() == Init().sh && capacity == if bufferSize < 0 then 0 else bufferSize
    {
      capacity := if bufferSize < 0 then 0 else bufferSize;
      queue, queueClosed, stopped, cancelled, errs, errsClosed := [], false, false, false, [], false;
      panicked := false;
    }

    method TrySendLocked(email: Email, receiverReady: bool) returns (r: Outcome)
      modifies this
      ensures (View(), r) == TrySend(old(View()), capacity, email, receiverReady)
    {
      if stopped {
        return SenderStopped;
      }
      if queueClosed {
        panicked := true;
        return Crashed;
      }
      if receiverReady || |queue| < capacity {
        queue := queue + [email];
        return Accepted;
      }
      return QueueFull;
    }

    /** Both steps happen under the write lock. */
    method MarkStopped()
      modifies this
      ensures View() == CloseQueue(old(View()).(stopped := true))
    {
      stopped := true;
      if queueClosed {
        panicked := true;
      } else {
        queueClosed := true;
      }
    }

    method ReportFailure(email: Email, readerReady: bool) returns (d: Delivery)
      modifies this
      ensures (View(), d) == Report(old(View()), capacity, email, readerReady)
    {
      if errsClosed {
        panicked := true;
        return Lost;
      }
      if readerReady && |errs| == 0 {
        return Heard;
      }
      if |errs| < capacity {
        errs := errs + [email];
        return Buffered;
      }
      return Dropped;
    }
  }
}
