/**
 * The IMAP idle loop: IDLE in a goroutine of its own, a drainer that turns
 * mailbox updates into one pending poke, and a main loop that interrupts IDLE,
 * searches, fetches, and idles again.
 */
module ImapIdle {
  import opened Prelude

  /** The main loop, between two of its steps. */
  datatype Pc =
    | Idling                  // selecting on the context, `done` and `poke`
    | Ending(quitting: bool)  // `stop` closed, waiting for `done` or the timeout
    | Checking(failed: bool)  // looking at IDLE's error
    | Searching
    | Fetching
    | Emitting
    | Exited

  datatype Drainer = Resting | Carrying

  const UPDATE_BUFFER_SIZE := 64

  /** The IDLE command: outstanding from its spawn until it reports on `done`. */
  datatype Idle = Idle(outstanding: bool, done: Option<bool>, stopClosed: bool)

  datatype Sys = Sys(
    pc: Pc,
    idle: Idle,
    updates: seq<bool>,    // unilateral updates; true for a mailbox update
    drainer: Drainer,
    poke: bool,
    unsearched: bool,      // a mailbox update was drained after the last SEARCH began
    searches: nat,         // SEARCH commands begun
    steps: nat,            // steps the main loop has taken
    overlapped: bool,      // a command was issued while IDLE was outstanding
    panicked: bool)        // `stop` was closed twice in a round

  function Spawned(): Idle { Idle(true, None, false) }

  function Init(): Sys {
    Sys(Idling, Spawned(), [], Resting, false, false, 0, 0, false, false)
  }

  datatype Action =
    | Update(mailbox: bool)
    | Drain
    | Poke
    | IdleReturns(failed: bool)
    | SeeCancel
    | SeeDone
    | SeePoke
    | TimeOut
    | Judge
    | SearchReturns(failed: bool, found: bool)
    | FetchReturns(failed: bool)
    | Emit(cancelled: bool)

  predicate IsMain(a: Action) {
    !a.Update? && !a.Drain? && !a.Poke? && !a.IdleReturns?
  }

  /** The main loop takes a step. */
  function Go(s: Sys, pc: Pc): Sys {
    s.(pc := pc, steps := s.steps + 1)
  }

  /** Issues a command on the connection. */
  function Issue(s: Sys): Sys {
    s.(overlapped := s.overlapped || s.idle.outstanding)
  }

  function CloseStop(s: Sys): Sys {
    s.(idle := s.idle.(stopClosed := true), panicked := s.panicked || s.idle.stopClosed)
  }

  /** The top of the loop: a new `stop`, a new `done`, a new IDLE. */
  function NewRound(s: Sys): Sys {
    Go(Issue(s), Idling).(idle := Spawned())
  }

  function DoSelect(s: Sys, a: Action): Sys {
    match a
    case SeeCancel => if s.pc.Idling? then Go(CloseStop(s), Ending(true)) else s
    case SeePoke => if s.pc.Idling? && s.poke then Go(CloseStop(s), Ending(false)).(poke := false) else s
    case SeeDone =>
      if s.idle.done.None? then s
      else if s.pc.Idling? || s.pc == Ending(false) then
        Go(s, Checking(s.idle.done.value)).(idle := s.idle.(done := None))
      else if s.pc == Ending(true) then Go(s, Exited)
      else s
    case TimeOut =>
      if s.pc == Ending(false) then Go(s, Checking(true))
      else if s.pc == Ending(true) then Go(s, Exited)
      else s
    case _ => s
  }

  function DoWork(s: Sys, a: Action): Sys {
    match a
    case Judge =>
      if s.pc == Checking(true) then Go(s, Exited)
      else if s.pc == Checking(false) then
        Go(Issue(s), Searching).(unsearched := false, searches := s.searches + 1)
      else s
    case SearchReturns(failed, found) =>
      if !s.pc.Searching? then s
      else if failed then Go(s, Exited)
      else if found then Go(Issue(s), Fetching)
      else NewRound(s)
    case FetchReturns(failed) =>
      if !s.pc.Fetching? then s else if failed then Go(s, Exited) else Go(s, Emitting)
    case Emit(cancelled) =>
      if !s.pc.Emitting? then s else if cancelled then Go(s, Exited) else NewRound(s)
    case _ => s
  }

  function DoBackground(s: Sys, a: Action): Sys {
    match a
    case Update(mailbox) => if |s.updates| < UPDATE_BUFFER_SIZE then s.(updates := s.updates + [mailbox]) else s
    case Drain =>
      if s.drainer.Carrying? || s.updates == [] then s
      else if s.updates[0] then s.(updates := s.updates[1..], drainer := Carrying, unsearched := true)
      else s.(updates := s.updates[1..])
    case Poke => if s.drainer.Carrying? then s.(drainer := Resting, poke := true) else s
    case IdleReturns(failed) =>
      if s.idle.outstanding then s.(idle := Idle(false, Some(failed), s.idle.stopClosed)) else s
    case _ => s
  }

  function Next(s: Sys, a: Action): Sys {
    if a.SeeCancel? || a.SeePoke? || a.SeeDone? || a.TimeOut? then DoSelect(s, a)
    else if IsMain(a) then DoWork(s, a)
    else DoBackground(s, a)
  }

  function Exec(s: Sys, run: seq<Action>): Sys {
    Fold((s: Sys, a: Action) => Next(s, a), s, run)
  }

  // ---- invariant ----

  /** The connection is the main loop's own. */
  predicate Free(pc: Pc) {
    pc == Checking(false) || pc.Searching? || pc.Fetching? || pc.Emitting?
  }

  ghost predicate Invariant(s: Sys) {
    && !s.overlapped && !s.panicked
    && (s.idle.done.Some? ==> !s.idle.outstanding)
    && (s.pc.Idling? ==> !s.idle.stopClosed)
    && (Free(s.pc) ==> !s.idle.outstanding)
    && (s.unsearched ==>
          s.drainer.Carrying? || s.poke || s.pc.Ending? || s.pc.Checking? || s.pc.Exited?)
  }

  lemma SelectKeeps(s: Sys, a: Action)
    requires Invariant(s)
    ensures Invariant(DoSelect(s, a))
  {
  }

  lemma WorkKeeps(s: Sys, a: Action)
    requires Invariant(s)
    ensures Invariant(DoWork(s, a))
  {
  }

  lemma BackgroundKeeps(s: Sys, a: Action)
    requires Invariant(s)
    ensures Invariant(DoBackground(s, a))
  {
  }

  lemma {:induction false} InvariantAlong(s: Sys, run: seq<Action>)
    requires Invariant(s)
    ensures Invariant(Exec(s, run))
    decreases |run|
  {
    if run != [] {
      var a := run[0];
      SelectKeeps(s, a);
      WorkKeeps(s, a);
      BackgroundKeeps(s, a);
      InvariantAlong(Next(s, a), run[1..]);
    }
  }

  // ---- the results ----

  /** No command ever meets an outstanding IDLE, and no round closes `stop` twice. */
  lemma CommandsNeverOverlap(run: seq<Action>)
    ensures var s := Exec(Init(), run);
            && !s.overlapped && !s.panicked
            && (s.pc.Searching? || s.pc.Fetching? ==> !s.idle.outstanding)
  {
    InvariantAlong(Init(), run);
  }

  /** How many steps the main loop can take before it begins a SEARCH or exits. */
  function Distance(pc: Pc): nat {
    match pc
    case Searching => 6
    case Fetching => 5
    case Emitting => 4
    case Idling => 3
    case Ending(_) => 2
    case Checking(_) => 1
    case Exited => 0
  }

  ghost predicate GotCloser(s: Sys, s': Sys) {
    && (s'.searches > s.searches || s'.pc.Exited? || s'.steps + Distance(s'.pc) <= s.steps + Distance(s.pc))
    && (s.pc.Exited? ==> s'.pc.Exited?)
    && s'.searches >= s.searches
  }

  lemma SelectCloser(s: Sys, a: Action)
    ensures GotCloser(s, DoSelect(s, a))
  {
    match a
    case SeeCancel => case SeePoke => case SeeDone => case TimeOut => case _ =>
  }

  lemma WorkCloser(s: Sys, a: Action)
    ensures GotCloser(s, DoWork(s, a))
  {
    match a
    case Judge => case SearchReturns(_, _) => case FetchReturns(_) => case Emit(_) => case _ =>
  }

  lemma Closer(s: Sys, a: Action)
    ensures GotCloser(s, Next(s, a))
  {
    if a.SeeCancel? || a.SeePoke? || a.SeeDone? || a.TimeOut? {
      SelectCloser(s, a);
    } else if IsMain(a) {
      WorkCloser(s, a);
    } else {
      match a
      case Update(_) => case Drain => case Poke => case _ =>
    }
  }

  lemma {:induction false} CloserAlong(s: Sys, run: seq<Action>)
    ensures GotCloser(s, Exec(s, run))
    decreases |run|
  {
    if run != [] {
      Closer(s, run[0]);
      CloserAlong(Next(s, run[0]), run[1..]);
    }
  }

  /** The main loop has a step to take that does not depend on a new update or on IDLE ending by itself. */
  predicate Bound(s: Sys) {
    s.drainer.Carrying? || s.poke || s.pc.Ending? || s.pc.Checking? || s.pc.Exited?
  }

  /**
   * An update that was drained and has not been followed by the start of a
   * SEARCH keeps the loop bound for one: a poke is pending or IDLE is already
   * being ended. However the run goes on, once the main loop has taken more
   * than six steps a SEARCH has begun or the loop has exited.
   */
  lemma DrainedUpdateIsSearched(run: seq<Action>, more: seq<Action>)
    ensures var s, s' := Exec(Init(), run), Exec(Init(), run + more);
            && (s.unsearched ==> Bound(s))
            && (s.unsearched && s.pc.Idling? && s.drainer.Resting? ==> Next(s, SeePoke).pc == Ending(false))
            && (s'.steps > s.steps + 6 ==> s'.searches > s.searches || s'.pc.Exited?)
  {
    InvariantAlong(Init(), run);
    FoldSplit((s: Sys, a: Action) => Next(s, a), Init(), run, more);
    CloserAlong(Exec(Init(), run), more);
  }

  // ---- only news interrupts ----

  /** No mailbox update has come, and nothing follows from one. */
  predicate NoNews(s: Sys) {
    && (forall i :: 0 <= i < |s.updates| ==> !s.updates[i])
    && s.drainer.Resting? && !s.poke && !s.unsearched && s.pc != Ending(false)
  }

  lemma NoNewsStep(s: Sys, a: Action)
    requires NoNews(s) && a != Update(true)
    ensures NoNews(Next(s, a))
  {
    if a.SeeCancel? || a.SeePoke? || a.SeeDone? || a.TimeOut? {
      NoNewsSelected(s, a);
    } else if IsMain(a) {
    } else {
      NoNewsBehind(s, a);
    }
  }

  lemma NoNewsSelected(s: Sys, a: Action)
    requires NoNews(s)
    ensures NoNews(DoSelect(s, a))
  {
  }

  lemma NoNewsBehind(s: Sys, a: Action)
    requires NoNews(s) && a != Update(true)
    ensures NoNews(DoBackground(s, a))
  {
  }

  lemma {:induction false} NoNewsAlong(s: Sys, run: seq<Action>)
    requires NoNews(s) && Update(true) !in run
    ensures NoNews(Exec(s, run))
    decreases |run|
  {
    if run != [] {
      assert run[0] in run && forall a :: a in run[1..] ==> a in run;
      NoNewsStep(s, run[0]);
      NoNewsAlong(Next(s, run[0]), run[1..]);
    }
  }

  /** Without a mailbox update nothing pokes the loop, and IDLE is interrupted only to leave. */
  lemma OnlyNewsInterrupts(run: seq<Action>)
    requires Update(true) !in run
    ensures var s := Exec(Init(), run); !s.poke && s.pc != Ending(false)
  {
    NoNewsAlong(Init(), run);
  }

  // ---- what follows a SEARCH ----

  /** The main loop, at `pc`, takes the step `a` as number `k` of the run. */
  ghost predicate Takes(s: Sys, run: seq<Action>, k: nat, pc: Pc, a: Action) {
    k < |run| && run[k] == a && Exec(s, run[..k]).pc == pc
  }

  lemma TakesLater(s: Sys, run: seq<Action>, k: nat, pc: Pc, a: Action)
    requires run != [] && Takes(Next(s, run[0]), run[1..], k, pc, a)
    ensures Takes(s, run, k + 1, pc, a)
  {
    assert run[..k + 1][1..] == run[1..][..k];
    assert run[..k + 1][0] == run[0];
  }

  lemma TakesFirst(s: Sys, run: seq<Action>)
    requires run != []
    ensures Takes(s, run, 0, s.pc, run[0])
  {
    assert run[..0] == [];
  }

  lemma {:induction false} ExitedForGood(s: Sys, run: seq<Action>)
    requires s.pc.Exited?
    ensures Exec(s, run).pc.Exited?
    decreases |run|
  {
    CloserAlong(s, run);
  }

  lemma {:induction false} EmitsFirst(s: Sys, run: seq<Action>) returns (k: nat)
    requires s.pc.Emitting? && Exec(s, run).pc.Idling?
    ensures Takes(s, run, k, Emitting, Emit(false))
    decreases |run|
  {
    var next := Next(s, run[0]);
    if run[0] == Emit(false) {
      k := 0;
      TakesFirst(s, run);
    } else if next.pc.Emitting? {
      k := EmitsFirst(next, run[1..]);
      TakesLater(s, run, k, Emitting, Emit(false));
      k := k + 1;
    } else {
      ExitedForGood(next, run[1..]);
    }
  }

  /** A FETCH has come back, and then its mails have been handed on. */
  ghost predicate HandsOn(s: Sys, run: seq<Action>, j: nat, k: nat) {
    j < k && Takes(s, run, j, Fetching, FetchReturns(false)) && Takes(s, run, k, Emitting, Emit(false))
  }

  lemma HandsOnLater(s: Sys, run: seq<Action>, j: nat, k: nat)
    requires run != [] && HandsOn(Next(s, run[0]), run[1..], j, k)
    ensures HandsOn(s, run, j + 1, k + 1)
  {
    TakesLater(s, run, j, Fetching, FetchReturns(false));
    TakesLater(s, run, k, Emitting, Emit(false));
  }

  lemma FetchedFirst(s: Sys, run: seq<Action>, k: nat)
    requires s.pc.Fetching? && run != [] && run[0] == FetchReturns(false)
    requires Takes(Next(s, run[0]), run[1..], k, Emitting, Emit(false))
    ensures HandsOn(s, run, 0, k + 1)
  {
    TakesFirst(s, run);
    TakesLater(s, run, k, Emitting, Emit(false));
  }

  lemma FetchLeads(s: Sys, a: Action)
    requires s.pc.Fetching?
    ensures Next(s, a).pc == if a == FetchReturns(false) then Emitting else if a.FetchReturns? then Exited else Fetching
  {
  }

  lemma {:induction false} FetchesFirst(s: Sys, run: seq<Action>) returns (j: nat, k: nat)
    requires s.pc.Fetching? && Exec(s, run).pc.Idling?
    ensures HandsOn(s, run, j, k)
    decreases |run|
  {
    var next := Next(s, run[0]);
    FetchLeads(s, run[0]);
    if run[0] == FetchReturns(false) {
      k := EmitsFirst(next, run[1..]);
      FetchedFirst(s, run, k);
      j, k := 0, k + 1;
    } else if next.pc.Fetching? {
      j, k := FetchesFirst(next, run[1..]);
      HandsOnLater(s, run, j, k);
      j, k := j + 1, k + 1;
    } else {
      ExitedForGood(next, run[1..]);
    }
  }

  /**
   * A SEARCH that found unseen mail is followed by a FETCH at once, and
   * however the run goes on the loop does not idle again before that FETCH has
   * succeeded and its mails have been handed on. One that found nothing goes
   * back to idling with a new IDLE, and one that failed ends the loop.
   */
  lemma FoundMailIsHandedOn(run: seq<Action>, more: seq<Action>)
    requires Exec(Init(), run).pc.Searching?
    ensures
      var s := Exec(Init(), run);
      var found, nothing := Next(s, SearchReturns(false, true)), Next(s, SearchReturns(false, false));
      && found.pc.Fetching?
      && (Exec(found, more).pc.Idling? ==>
            exists j: nat, k: nat :: HandsOn(found, more, j, k))
      && nothing.pc.Idling? && nothing.idle == Spawned()
      && Next(s, SearchReturns(true, true)).pc.Exited? && Next(s, SearchReturns(true, false)).pc.Exited?
  {
    SearchLeads(Exec(Init(), run));
    var found := Next(Exec(Init(), run), SearchReturns(false, true));
    if Exec(found, more).pc.Idling? {
      var j, k := FetchesFirst(found, more);
    }
  }

  lemma SearchLeads(s: Sys)
    requires s.pc.Searching?
    ensures Next(s, SearchReturns(false, true)).pc.Fetching?
    ensures Next(s, SearchReturns(false, false)).pc.Idling? && Next(s, SearchReturns(false, false)).idle == Spawned()
    ensures Next(s, SearchReturns(true, true)).pc.Exited? && Next(s, SearchReturns(true, false)).pc.Exited?
  {
  }

  // ---- how the loop ends ----

  /** On its way out. */
  predicate Doomed(pc: Pc) {
    pc == Ending(true) || pc == Checking(true) || pc.Exited?
  }

  /** The context is done, or something the loop waited for failed or never came. */
  predicate Fails(s: Sys, a: Action) {
    match a
    case SeeCancel => s.pc.Idling?
    case SeeDone => (s.pc.Idling? || s.pc == Ending(false)) && s.idle.done == Some(true)
    case TimeOut => s.pc == Ending(false)
    case SearchReturns(failed, _) => s.pc.Searching? && failed
    case FetchReturns(failed) => s.pc.Fetching? && failed
    case Emit(cancelled) => s.pc.Emitting? && cancelled
    case _ => false
  }

  lemma DoomedBySelect(s: Sys, a: Action)
    requires a.SeeCancel? || a.SeePoke? || a.SeeDone? || a.TimeOut?
    ensures Doomed(Next(s, a).pc) <==> Doomed(s.pc) || Fails(s, a)
    ensures Next(s, a).searches == s.searches
  {
    match a
    case SeeCancel => case SeePoke => case SeeDone => case TimeOut =>
  }

  lemma DoomedByWork(s: Sys, a: Action)
    requires IsMain(a) && !a.SeeCancel? && !a.SeePoke? && !a.SeeDone? && !a.TimeOut?
    ensures Doomed(Next(s, a).pc) <==> Doomed(s.pc) || Fails(s, a)
    ensures Doomed(s.pc) ==> Next(s, a).searches == s.searches
    ensures s.pc == Checking(false) && a.Judge? ==> Next(s, a).pc.Searching? && Next(s, a).searches == s.searches + 1
  {
    match a
    case Judge => case SearchReturns(_, _) => case FetchReturns(_) => case Emit(_) =>
  }

  lemma DoomedStep(s: Sys, a: Action)
    ensures Doomed(Next(s, a).pc) <==> Doomed(s.pc) || Fails(s, a)
    ensures Doomed(s.pc) ==> Next(s, a).searches == s.searches
  {
    if a.SeeCancel? || a.SeePoke? || a.SeeDone? || a.TimeOut? {
      DoomedBySelect(s, a);
    } else if IsMain(a) {
      DoomedByWork(s, a);
    }
  }

  predicate AnyFails(s: Sys, run: seq<Action>)
    decreases |run|
  {
    run != [] && (Fails(s, run[0]) || AnyFails(Next(s, run[0]), run[1..]))
  }

  lemma {:induction false} DoomedAlong(s: Sys, run: seq<Action>)
    ensures Doomed(Exec(s, run).pc) <==> Doomed(s.pc) || AnyFails(s, run)
    ensures Doomed(s.pc) ==> Exec(s, run).searches == s.searches
    decreases |run|
  {
    if run != [] {
      DoomedStep(s, run[0]);
      DoomedAlong(Next(s, run[0]), run[1..]);
    }
  }

  /**
   * The loop is ending exactly when the context was seen done or a step
   * failed, and from then on no SEARCH begins and it does not idle again.
   */
  lemma LoopEndsIff(run: seq<Action>, more: seq<Action>)
    ensures
      var s, s' := Exec(Init(), run), Exec(Init(), run + more);
      && (Doomed(s.pc) <==> AnyFails(Init(), run))
      && (Doomed(s.pc) ==> Doomed(s'.pc) && s'.searches == s.searches)
  {
    DoomedAlong(Init(), run);
    FoldSplit((s: Sys, a: Action) => Next(s, a), Init(), run, more);
    DoomedAlong(Exec(Init(), run), more);
  }
}
