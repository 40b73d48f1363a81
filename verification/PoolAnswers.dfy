/** What the pool answers, in which order it serves, and which connections come back. */
module PoolAnswers {
  import opened Prelude
  import opened SmtpPool
  import opened PoolOwnership
  import opened PoolChannels
  import opened PoolRuns

  // ---- without Wait nobody queues ----

  ghost predicate Queueless(s: Sys) {
    s.sh.waiters == [] && forall t :: WaitsOn(Ph(s, t)).None?
  }

  lemma QueuelessKept(cfg: Config, s: Sys, a: Action)
    requires !cfg.wait && Queueless(s)
    ensures Queueless(Next(cfg, s, a))
  {
    forall t ensures WaitsOn(Ph(Next(cfg, s, a), t)).None? {
      assert WaitsOn(Ph(s, t)).None?;
    }
    match a
    case Release(t) => QueuelessRelease(s, t);
    case Close => assert Shut(s.sh).waiters == [];
    case _ =>
  }

  lemma QueuelessRelease(s: Sys, t: Thread)
    requires s.sh.waiters == []
    ensures DoRelease(s, t).sh.waiters == []
  {
  }

  lemma {:induction false} QueuelessAlong(cfg: Config, s: Sys, run: seq<Action>)
    requires !cfg.wait && Queueless(s)
    ensures Queueless(Exec(cfg, s, run))
    decreases |run|
  {
    if run != [] {
      QueuelessKept(cfg, s, run[0]);
      QueuelessAlong(cfg, Next(cfg, s, run[0]), run[1..]);
    }
  }

  /** A pool that does not wait never has a queue, and no caller of it ever blocks. */
  lemma NobodyWaits(cfg: Config, run: seq<Action>)
    requires !cfg.wait
    ensures var s := Reached(cfg, run);
            s.sh.waiters == [] && forall t :: WaitsOn(Ph(s, t)).None?
  {
    QueuelessAlong(Normalize(cfg), Init(), run);
  }

  // ---- what Get is answered ----

  predicate Asks(p: Phase) {
    p.Asking? || p.Retrying?
  }

  /** Every connection the pool may have is out, and none is idle. */
  predicate Exhausted(cfg: Config, sh: Shared) {
    sh.idle == [] && cfg.maxOpen > 0 && sh.open == cfg.maxOpen
  }

  /** `t` is now waiting at the end of the queue, behind all that asked before. */
  ghost predicate WaitsLast(s: Sys, s': Sys, t: Thread) {
    var ch := s.nextChan;
    && Ph(s', t) == Waiting(ch) && s'.sh.waiters == s.sh.waiters + [ch] && OwnedBy(s', ch, t) && Fresh(s', ch)
    && (forall other :: other in s.sh.chans ==> other < ch)
    && s'.sh.idle == s.sh.idle && s'.sh.open == s.sh.open
  }

  /**
   * In every reachable state, one turn of Get's loop: a closed pool refuses;
   * the newest idle connection is taken to be checked; without one a slot is
   * taken while there are any; and when there are none the caller waits its
   * turn or is refused, as the configuration says.
   */
  lemma GetIsAnswered(cfg: Config, run: seq<Action>, t: Thread)
    requires Asks(Ph(Reached(cfg, run), t))
    ensures
      var s := Reached(cfg, run);
      var s' := Next(Normalize(cfg), s, Lock(t));
      var answer := Acquire(Normalize(cfg), s.sh, t, s.nextChan).1;
      && (answer.Closed? <==> s.sh.closed)
      && (answer.Full? <==> !s.sh.closed && Exhausted(cfg, s.sh) && !cfg.wait)
      && (if s.sh.closed then Ph(s', t).Out? && s'.sh == s.sh
          else if s.sh.idle != [] then
            exists newest :: Ph(s', t) == Checking(newest) && s.sh == s'.sh.(idle := s'.sh.idle + [newest])
          else if !Exhausted(cfg, s.sh) then Ph(s', t).Dialling? && s'.sh == s.sh.(open := s.sh.open + 1)
          else if cfg.wait then WaitsLast(s, s', t)
          else Ph(s', t).Out? && s'.sh == s.sh)
      && s'.loans == s.loans && (forall u :: u != t ==> Ph(s', u) == Ph(s, u))
  {
    InvariantReached(cfg, run);
    var s := Reached(cfg, run);
    if !s.sh.closed && s.sh.idle != [] {
      var newest := s.sh.idle[|s.sh.idle| - 1];
      var s' := Next(Normalize(cfg), s, Lock(t));
      assert Ph(s', t) == Checking(newest);
      assert s.sh == s'.sh.(idle := s'.sh.idle + [newest]);
    }
  }

  /** Inside Get. */
  predicate InGet(p: Phase) {
    || p.Asking? || p.Retrying? || p.Checking? || p.Claiming? || p.Dialling? || p.DialFailed?
    || (p.Dropping? && p.again) || p.Waiting? || p.Cancelling? || p.Draining?
  }

  /** `c` was nobody's to use and is now lent to a caller. */
  ghost predicate Lent(s: Sys, s': Sys, c: Client) {
    c !in s.loans && s'.loans == s.loans + {c}
  }

  /** A step that leaves Get with nothing. */
  predicate GivesUp(cfg: Config, s: Sys, t: Thread) {
    var p := Ph(s, t);
    || (Asks(p) && (s.sh.closed || (Exhausted(cfg, s.sh) && !cfg.wait)))
    || p.DialFailed?
    || (p.Cancelling? && p.ch in s.sh.waiters)
    || (p.Draining? && Answerable(s.sh, p.ch) && s.sh.chans[p.ch].buffer.value.None?)
  }

  /** A cancelled waiter that was handed a connection puts it back as failed. */
  ghost predicate HandsBack(s: Sys, s': Sys, t: Thread) {
    && Ph(s, t).Draining? && Ph(s', t).Returning? && Ph(s', t).failed
    && At(s, Mailbox(Ph(s, t).ch)) == Some(Ph(s', t).c)
  }

  ghost predicate EndsGet(cfg: Config, s: Sys, s': Sys, t: Thread) {
    if Ph(s', t).Out? then
      || (exists c :: Lent(s, s', c) && (Ph(s, t) == Claiming(c) || WaitsFor(s, t, c)))
      || (s'.loans == s.loans && GivesUp(cfg, s, t))
    else HandsBack(s, s', t)
  }

  /**
   * Get ends in one of three ways and in no other: with a connection that
   * passed its check, was just dialled or was handed over; with nothing, for
   * one of the reasons above; or by putting back what came too late. A dead
   * idle connection does not end it: the loop goes round again.
   */
  lemma GetEnds(cfg: Config, run: seq<Action>, a: Action, t: Thread)
    requires InGet(Ph(Reached(cfg, run), t)) && !InGet(Ph(Next(Normalize(cfg), Reached(cfg, run), a), t))
    ensures EndsGet(cfg, Reached(cfg, run), Next(Normalize(cfg), Reached(cfg, run), a), t)
  {
    InvariantReached(cfg, run);
    EndsFrom(cfg, Reached(cfg, run), a, t);
  }

  lemma EndsFrom(cfg: Config, s: Sys, a: Action, t: Thread)
    requires Ownership(s) && Accounts(Normalize(cfg), s)
    requires InGet(Ph(s, t)) && !InGet(Ph(Next(Normalize(cfg), s, a), t))
    ensures EndsGet(cfg, s, Next(Normalize(cfg), s, a), t)
  {
    match a
    case Claim(u) => ClaimEnds(cfg, s, a, t);
    case Receive(u) => ReceiveEnds(cfg, s, a, t);
    case Lock(u) => LockEnds(cfg, s, a, t);
    case LeaveQueue(u) => LeaveEnds(cfg, s, a, t);
    case Drain(u) => DrainEnds(cfg, s, a, t);
    case Release(u) => ReleaseEnds(cfg, s, a, t);
    case _ => NothingEnds(Normalize(cfg), s, a, t);
  }

  lemma LockEnds(cfg: Config, s: Sys, a: Action, t: Thread)
    requires Accounts(Normalize(cfg), s) && a.Lock?
    requires InGet(Ph(s, t)) && !InGet(Ph(Next(Normalize(cfg), s, a), t))
    ensures EndsGet(cfg, s, Next(Normalize(cfg), s, a), t)
  {
  }

  lemma LeaveEnds(cfg: Config, s: Sys, a: Action, t: Thread)
    requires a.LeaveQueue? && InGet(Ph(s, t)) && !InGet(Ph(Next(Normalize(cfg), s, a), t))
    ensures EndsGet(cfg, s, Next(Normalize(cfg), s, a), t)
  {
  }

  lemma ReleaseEnds(cfg: Config, s: Sys, a: Action, t: Thread)
    requires a.Release? && InGet(Ph(s, t)) && !InGet(Ph(Next(Normalize(cfg), s, a), t))
    ensures EndsGet(cfg, s, Next(Normalize(cfg), s, a), t)
  {
  }

  lemma DrainEnds(cfg: Config, s: Sys, a: Action, t: Thread)
    requires a.Drain? && InGet(Ph(s, t)) && !InGet(Ph(Next(Normalize(cfg), s, a), t))
    ensures EndsGet(cfg, s, Next(Normalize(cfg), s, a), t)
  {
  }

  lemma ClaimEnds(cfg: Config, s: Sys, a: Action, t: Thread)
    requires Ownership(s) && a.Claim? && InGet(Ph(s, t)) && !InGet(Ph(Next(Normalize(cfg), s, a), t))
    ensures EndsGet(cfg, s, Next(Normalize(cfg), s, a), t)
  {
    ClaimLends(s, t);
  }

  lemma ReceiveEnds(cfg: Config, s: Sys, a: Action, t: Thread)
    requires Ownership(s) && a.Receive? && InGet(Ph(s, t)) && !InGet(Ph(Next(Normalize(cfg), s, a), t))
    ensures EndsGet(cfg, s, Next(Normalize(cfg), s, a), t)
  {
    ReceiveLends(s, t);
  }

  lemma NothingEnds(cfg: Config, s: Sys, a: Action, t: Thread)
    requires InGet(Ph(s, t))
    requires !a.Claim? && !a.Receive? && !a.Lock? && !a.LeaveQueue? && !a.Drain? && !a.Release?
    ensures InGet(Ph(Next(cfg, s, a), t))
  {
    match a
    case Replace(u) =>
    case Close =>
    case _ =>
  }

  lemma ClaimLends(s: Sys, t: Thread)
    requires Ownership(s) && Ph(s, t).Claiming?
    ensures Lent(s, DoClaim(s, t), Ph(s, t).c)
  {
    assert At(s, Hands(t)) == Some(Ph(s, t).c) && At(s, Loan(Ph(s, t).c)).None?;
  }

  lemma ReceiveLends(s: Sys, t: Thread)
    requires Ownership(s) && InGet(Ph(s, t)) && !InGet(Ph(DoReceive(s, t), t))
    ensures Ph(DoReceive(s, t), t).Out?
    ensures exists c :: Lent(s, DoReceive(s, t), c) && WaitsFor(s, t, c)
  {
    var c := s.sh.chans[Ph(s, t).ch].buffer.value.value;
    assert At(s, Mailbox(Ph(s, t).ch)) == Some(c) && At(s, Loan(c)).None?;
    assert Lent(s, DoReceive(s, t), c);
  }

  /** The connection is in the channel `t` waits on. */
  predicate WaitsFor(s: Sys, t: Thread, c: Client) {
    Ph(s, t).Waiting? && At(s, Mailbox(Ph(s, t).ch)) == Some(c)
  }

  // ---- first come, first served ----

  /** Answered, or about to be. */
  ghost predicate Chosen(s: Sys, ch: ChanId) {
    (ch in s.sh.chans && s.sh.chans[ch].sends > 0) || InFlight(s, ch)
  }

  ghost predicate InOrder(ws: seq<ChanId>) {
    forall i, j :: 0 <= i < j < |ws| ==> ws[i] < ws[j]
  }

  ghost predicate Before(s: Sys, ws: seq<ChanId>) {
    forall ch: ChanId, w: ChanId :: Chosen(s, ch) && w in ws ==> ch < w
  }

  /** The queue is in the order of asking, and whoever was chosen asked before whoever still waits. */
  ghost predicate Fair(s: Sys) {
    InOrder(s.sh.waiters) && Before(s, s.sh.waiters)
  }

  lemma ChosenIsOld(s: Sys, ch: ChanId)
    requires Channels(s) && Chosen(s, ch)
    ensures ch < s.nextChan
  {
    if InFlight(s, ch) {
      var t :| Ph(s, t).Handing? && Ph(s, t).ch == ch;
      assert HandOk(s, t);
    }
  }

  /** The queue may lose members, and nobody was chosen but perhaps the head, who has left it. */
  lemma FairAfter(s: Sys, s': Sys)
    requires Fair(s) && InOrder(s'.sh.waiters) && (forall w :: w in s'.sh.waiters ==> w in s.sh.waiters)
    requires forall ch :: Chosen(s', ch) ==> Chosen(s, ch) || IsHead(s, s', ch)
    ensures Fair(s')
  {
    forall ch: ChanId, w: ChanId | Chosen(s', ch) && w in s'.sh.waiters ensures ch < w {
      if !Chosen(s, ch) {
        assert s.sh.waiters == [ch] + s'.sh.waiters;
        var i :| 0 <= i < |s'.sh.waiters| && s'.sh.waiters[i] == w;
        assert s.sh.waiters[i + 1] == w;
      }
    }
  }

  predicate IsHead(s: Sys, s': Sys, ch: ChanId) {
    s.sh.waiters != [] && ch == s.sh.waiters[0] && s'.sh.waiters == s.sh.waiters[1..]
  }

  lemma FlightsAfter(s: Sys, s': Sys, t: Thread)
    requires (forall u :: u != t ==> Ph(s', u) == Ph(s, u)) && !Ph(s', t).Handing?
    ensures forall ch :: InFlight(s', ch) ==> InFlight(s, ch)
  {
    forall ch | InFlight(s', ch) ensures InFlight(s, ch) {
      var u :| Ph(s', u).Handing? && Ph(s', u).ch == ch;
      assert Ph(s, u).Handing?;
    }
  }

  lemma {:induction false} WithoutInOrder(ws: seq<ChanId>, ch: ChanId)
    requires InOrder(ws)
    ensures InOrder(Without(ws, ch)) && forall w :: w in Without(ws, ch) ==> w in ws
  {
    if ws != [] && ws[0] != ch {
      var rest := ws[1..];
      assert forall i :: 0 <= i < |rest| ==> rest[i] == ws[i + 1];
      WithoutInOrder(rest, ch);
      FirstIsLeast(ws[0], rest, Without(rest, ch));
    } else if ws != [] {
      assert forall w :: w in ws[1..] ==> w in ws;
    }
  }

  lemma FirstIsLeast(first: ChanId, rest: seq<ChanId>, some: seq<ChanId>)
    requires (forall i :: 0 <= i < |rest| ==> first < rest[i]) && InOrder(some) && forall w :: w in some ==> w in rest
    ensures InOrder([first] + some) && forall w :: w in [first] + some ==> w in [first] + rest
  {
    forall j | 0 <= j < |some| ensures first < some[j] {
      assert some[j] in some;
    }
  }

  lemma FairInLock(cfg: Config, s: Sys, t: Thread)
    requires Fair(s) && Channels(s)
    ensures Fair(DoLock(cfg, s, t))
  {
    var s' := DoLock(cfg, s, t);
    if Asks(Ph(s, t)) {
      FlightsAfter(s, s', t);
      if Ph(s', t).Waiting? {
        Queues(s, s', s.nextChan);
      } else {
        assert s'.sh.waiters == s.sh.waiters && s'.sh.chans == s.sh.chans;
        FairAfter(s, s');
      }
    }
  }

  lemma Queues(s: Sys, s': Sys, new_: ChanId)
    requires Fair(s) && Channels(s) && new_ == s.nextChan && s'.sh.waiters == s.sh.waiters + [new_]
    requires forall ch :: Chosen(s', ch) ==> Chosen(s, ch)
    ensures Fair(s')
  {
    forall ch: ChanId | Chosen(s', ch) ensures ch < new_ {
      ChosenIsOld(s, ch);
    }
    forall i | 0 <= i < |s.sh.waiters| ensures s.sh.waiters[i] < new_ {
      assert s.sh.waiters[i] in s.sh.waiters;
    }
  }

  /** A slot was released by `t`, and the head of the queue woken. */
  lemma FairInDec(s: Sys, s': Sys, t: Thread)
    requires Fair(s) && Channels(s) && s'.sh == DecOpen(s.sh)
    requires (forall u :: u != t ==> Ph(s', u) == Ph(s, u)) && !Ph(s', t).Handing?
    ensures Fair(s')
  {
    FlightsAfter(s, s', t);
    if s.sh.waiters != [] {
      assert s.sh.waiters[0] in s.sh.waiters;
    }
    FairAfter(s, s');
  }

  lemma FairInReplace(cfg: Config, s: Sys, t: Thread)
    requires Fair(s) && Channels(s)
    ensures Fair(DoReplace(cfg, s, t))
  {
    var s' := DoReplace(cfg, s, t);
    if Ph(s, t).Replacing? {
      var (sh, r) := GiveBack(cfg, s.sh, Ph(s, t).c);
      match r
      case Late => FairInDec(s, s', t);
      case Surplus => FairInDec(s, s', t);
      case Kept =>
        FlightsAfter(s, s', t);
        FairAfter(s, s');
      case Passed(head) => FairInPass(s, s', t, head);
    }
  }

  lemma FairInPass(s: Sys, s': Sys, t: Thread, head: ChanId)
    requires Fair(s) && s.sh.waiters != [] && head == s.sh.waiters[0] && s'.sh.waiters == s.sh.waiters[1..]
    requires (forall u :: u != t ==> Ph(s', u) == Ph(s, u)) && Ph(s', t).Handing? && Ph(s', t).ch == head
    requires s'.sh.chans == s.sh.chans
    ensures Fair(s')
  {
    forall ch | Chosen(s', ch) ensures Chosen(s, ch) || ch == head {
      if InFlight(s', ch) {
        var u :| Ph(s', u).Handing? && Ph(s', u).ch == ch;
        assert u == t || Ph(s, u).Handing?;
      }
    }
    FairAfter(s, s');
  }

  lemma FairInHand(s: Sys, t: Thread)
    requires Fair(s) && Channels(s)
    ensures Fair(DoHand(s, t))
  {
    var s' := DoHand(s, t);
    if Ph(s, t).Handing? {
      assert HandOk(s, t);
      FlightsAfter(s, s', t);
      assert InFlight(s, Ph(s, t).ch);
      FairAfter(s, s');
    }
  }

  lemma FairInLeave(s: Sys, t: Thread)
    requires Fair(s)
    ensures Fair(DoLeaveQueue(s, t))
  {
    var s' := DoLeaveQueue(s, t);
    if Ph(s, t).Cancelling? {
      FlightsAfter(s, s', t);
      WithoutInOrder(s.sh.waiters, Ph(s, t).ch);
      FairAfter(s, s');
    }
  }

  /** Receiving empties a channel but does not forget that something was sent on it. */
  lemma FairInReceive(s: Sys, t: Thread)
    requires Fair(s)
    ensures Fair(DoReceive(s, t))
  {
    FairAfterMove(s, DoReceive(s, t), t);
  }

  lemma FairInDrain(s: Sys, t: Thread)
    requires Fair(s)
    ensures Fair(DoDrain(s, t))
  {
    FairAfterMove(s, DoDrain(s, t), t);
  }

  lemma FairAfterMove(s: Sys, s': Sys, t: Thread)
    requires Fair(s) && s'.sh.waiters == s.sh.waiters
    requires s' == s || ((forall u :: u != t ==> Ph(s', u) == Ph(s, u)) && !Ph(s', t).Handing?)
    requires forall ch ::
      ch in s'.sh.chans && s'.sh.chans[ch].sends > 0 ==> ch in s.sh.chans && s.sh.chans[ch].sends > 0
    ensures Fair(s')
  {
    if s' != s {
      FlightsAfter(s, s', t);
      FairAfter(s, s');
    }
  }

  lemma FairKept(cfg: Config, s: Sys, a: Action)
    requires Fair(s) && Channels(s)
    ensures Fair(Next(cfg, s, a))
  {
    match a
    case Lock(t) => FairInLock(cfg, s, t);
    case Release(t) => FairInRelease(s, t);
    case Replace(t) => FairInReplace(cfg, s, t);
    case Hand(t) => FairInHand(s, t);
    case LeaveQueue(t) => FairInLeave(s, t);
    case Receive(t) => FairInReceive(s, t);
    case Drain(t) => FairInDrain(s, t);
    case Close => FairInClose(s);
    case _ => FairElsewhere(cfg, s, a);
  }

  lemma FairInRelease(s: Sys, t: Thread)
    requires Fair(s) && Channels(s)
    ensures Fair(DoRelease(s, t))
  {
    if Ph(s, t).DialFailed? || Ph(s, t).Dropping? {
      FairInDec(s, DoRelease(s, t), t);
    }
  }

  lemma FairInClose(s: Sys)
    requires Fair(s)
    ensures Fair(s.(sh := Shut(s.sh)))
  {
  }

  lemma FairElsewhere(cfg: Config, s: Sys, a: Action)
    requires Fair(s)
    requires a.StartGet? || a.Checked? || a.Claim? || a.Dialled? || a.Cancel? || a.StartPut? || a.Forget? || a.Settled?
    ensures Fair(Next(cfg, s, a))
  {
    FairAfterMove(s, Next(cfg, s, a), a.t);
  }

  lemma {:induction false} FairAlong(cfg: Config, s: Sys, run: seq<Action>)
    requires Fair(s) && Invariant(cfg, s)
    ensures Fair(Exec(cfg, s, run))
    decreases |run|
  {
    if run != [] {
      FairKept(cfg, s, run[0]);
      InvariantKept(cfg, s, run[0]);
      FairAlong(cfg, Next(cfg, s, run[0]), run[1..]);
    }
  }

  /** In every reachable state the queue is in the order of asking, and nobody in it was overtaken. */
  lemma NobodyIsOvertaken(cfg: Config, run: seq<Action>)
    ensures
      var s := Reached(cfg, run);
      && InOrder(s.sh.waiters)
      && (forall ch: ChanId, w: ChanId ::
            w in s.sh.waiters && ch in s.sh.chans && (s.sh.chans[ch].sends > 0 || InFlight(s, ch)) ==> ch < w)
  {
    InvariantAtStart(Normalize(cfg));
    FairAlong(Normalize(cfg), Init(), run);
    var s := Reached(cfg, run);
    forall ch: ChanId, w: ChanId
      | w in s.sh.waiters && ch in s.sh.chans && (s.sh.chans[ch].sends > 0 || InFlight(s, ch))
      ensures ch < w
    {
      assert Chosen(s, ch);
    }
  }

  // ---- connections that do not come back ----

  /** Holding a connection only to close it. */
  predicate Closing(p: Phase) {
    p.Dropping? || (p.Returning? && p.failed) || (p.Settling? && p.failed)
  }

  /** Wherever the connection is, it is about to be closed. */
  ghost predicate Condemned(s: Sys, c: Client) {
    && c < s.nextClient
    && forall p :: At(s, p) == Some(c) ==> p.Hands? && Closing(Ph(s, p.t))
  }

  /** A step that finds a connection dead, expired or suspect, or comes too late for it. */
  predicate Discards(s: Sys, a: Action, c: Client) {
    || (a.Checked? && !a.alive && Ph(s, a.t) == Checking(c))
    || (a.StartPut? && a.failed && a.c == c && Ph(s, a.t).Out? && c in s.loans)
    || (a.Settled? && !a.healthy && Ph(s, a.t).Settling? && Ph(s, a.t).c == c)
    || (a.Drain? && Ph(s, a.t).Draining? && At(s, Mailbox(Ph(s, a.t).ch)) == Some(c))
  }

  /** Every place that held `c` before the step is `from`. */
  lemma OnlyThere(s: Sys, c: Client, from: Place)
    requires Ownership(s) && At(s, from) == Some(c)
    ensures forall p :: At(s, p) == Some(c) ==> p == from
  {
  }

  lemma DiscardCondemns(cfg: Config, s: Sys, a: Action, c: Client)
    requires Invariant(cfg, s) && Discards(s, a, c)
    ensures Condemned(Next(cfg, s, a), c)
  {
    var s' := Next(cfg, s, a);
    var from := if a.StartPut? then Loan(c) else if a.Drain? then Mailbox(Ph(s, a.t).ch) else Hands(a.t);
    OnlyThere(s, c, from);
    forall p | At(s', p) == Some(c) ensures p == Hands(a.t) {
      assert p == Hands(a.t) || p == from || At(s, p) == At(s', p);
    }
  }

  lemma CondemnedInLock(cfg: Config, s: Sys, t: Thread, c: Client)
    requires Condemned(s, c) && forall ch :: ch in s.sh.chans ==> ch < s.nextChan
    ensures Condemned(DoLock(cfg, s, t), c)
  {
    if Asks(Ph(s, t)) {
      if s.sh.idle != [] {
        assert At(s, IdleSlot(|s.sh.idle| - 1)) != Some(c);
      }
      StaysCondemned(s, DoLock(cfg, s, t), t, c);
    }
  }

  /** Only `t` moved, and it did not come to hold `c` but to close it; nothing else came to hold `c`. */
  lemma StaysCondemned(s: Sys, s': Sys, t: Thread, c: Client)
    requires Condemned(s, c) && s.nextClient <= s'.nextClient
    requires forall u :: u != t ==> Ph(s', u) == Ph(s, u)
    requires HeldBy(Ph(s', t)) == Some(c) ==> Closing(Ph(s', t))
    requires forall i :: At(s', IdleSlot(i)) == Some(c) ==> At(s, IdleSlot(i)) == Some(c)
    requires c in s'.loans ==> c in s.loans
    requires forall ch :: At(s', Mailbox(ch)) == Some(c) ==> At(s, Mailbox(ch)) == Some(c)
    ensures Condemned(s', c)
  {
    forall p ensures At(s', p) == Some(c) ==> p.Hands? && Closing(Ph(s', p.t)) {
      if p.Hands? && p.t != t {
        assert At(s', p) == At(s, p);
      } else if !p.Hands? {
        assert At(s, p) != Some(c);
      }
    }
  }

  lemma CondemnedInGet(cfg: Config, s: Sys, a: Action, c: Client)
    requires Condemned(s, c) && (a.StartGet? || a.Checked? || a.Claim? || a.Dialled? || a.Cancel? || a.LeaveQueue?)
    ensures Condemned(Next(cfg, s, a), c)
  {
    assert At(s, Hands(a.t)) == Some(c) ==> Closing(Ph(s, a.t));
    StaysCondemned(s, Next(cfg, s, a), a.t, c);
  }

  lemma CondemnedInPut(cfg: Config, s: Sys, a: Action, c: Client)
    requires Condemned(s, c) && (a.StartPut? || a.Forget? || a.Settled? || a.Receive? || a.Drain?)
    ensures Condemned(Next(cfg, s, a), c)
  {
    assert At(s, Hands(a.t)) == Some(c) ==> Closing(Ph(s, a.t));
    assert At(s, Loan(c)) != Some(c);
    if WaitsOn(Ph(s, a.t)).Some? {
      assert At(s, Mailbox(WaitsOn(Ph(s, a.t)).value)) != Some(c);
    }
    forall ch | At(Next(cfg, s, a), Mailbox(ch)) == Some(c) ensures At(s, Mailbox(ch)) == Some(c) {
    }
    StaysCondemned(s, Next(cfg, s, a), a.t, c);
  }

  lemma CondemnedInDec(s: Sys, s': Sys, t: Thread, c: Client)
    requires Condemned(s, c) && s'.sh == DecOpen(s.sh) && s'.loans == s.loans && s'.nextClient == s.nextClient
    requires (forall u :: u != t ==> Ph(s', u) == Ph(s, u)) && HeldBy(Ph(s', t)).None?
    ensures Condemned(s', c)
  {
    DecOpenMovesNothing(s.sh);
    forall ch | At(s', Mailbox(ch)) == Some(c) ensures At(s, Mailbox(ch)) == Some(c) {
    }
    StaysCondemned(s, s', t, c);
  }

  lemma CondemnedInReplace(cfg: Config, s: Sys, t: Thread, c: Client)
    requires Condemned(s, c)
    ensures Condemned(DoReplace(cfg, s, t), c)
  {
    var s' := DoReplace(cfg, s, t);
    if Ph(s, t).Replacing? {
      assert At(s, Hands(t)) != Some(c);
      match GiveBack(cfg, s.sh, Ph(s, t).c).1
      case Late => CondemnedInDec(s, s', t, c);
      case Surplus => CondemnedInDec(s, s', t, c);
      case Passed(_) => StaysCondemned(s, s', t, c);
      case Kept => StaysCondemned(s, s', t, c);
    }
  }

  lemma CondemnedInHand(s: Sys, t: Thread, c: Client)
    requires Condemned(s, c)
    ensures Condemned(DoHand(s, t), c)
  {
    if Ph(s, t).Handing? {
      assert At(s, Hands(t)) != Some(c);
      forall ch | At(DoHand(s, t), Mailbox(ch)) == Some(c) ensures At(s, Mailbox(ch)) == Some(c) {
      }
      StaysCondemned(s, DoHand(s, t), t, c);
    }
  }

  lemma CondemnedInClose(s: Sys, c: Client)
    requires Condemned(s, c)
    ensures Condemned(s.(sh := Shut(s.sh)), c)
  {
    if !s.sh.closed {
      ShutPlaces(s, s.(sh := Shut(s.sh)));
    }
  }

  lemma CondemnedKept(cfg: Config, s: Sys, a: Action, c: Client)
    requires Condemned(s, c) && Channels(s)
    ensures Condemned(Next(cfg, s, a), c)
  {
    match a
    case Lock(t) => CondemnedInLock(cfg, s, t, c);
    case Release(t) =>
      if Ph(s, t).DialFailed? || Ph(s, t).Dropping? {
        CondemnedInDec(s, DoRelease(s, t), t, c);
      }
    case Replace(t) => CondemnedInReplace(cfg, s, t, c);
    case Hand(t) => CondemnedInHand(s, t, c);
    case Close => CondemnedInClose(s, c);
    case StartPut(_, _, _) => CondemnedInPut(cfg, s, a, c);
    case Forget(_) => CondemnedInPut(cfg, s, a, c);
    case Settled(_, _) => CondemnedInPut(cfg, s, a, c);
    case Receive(_) => CondemnedInPut(cfg, s, a, c);
    case Drain(_) => CondemnedInPut(cfg, s, a, c);
    case _ => CondemnedInGet(cfg, s, a, c);
  }

  lemma {:induction false} CondemnedAlong(cfg: Config, s: Sys, run: seq<Action>, c: Client)
    requires Condemned(s, c) && Invariant(cfg, s)
    ensures Condemned(Exec(cfg, s, run), c)
    decreases |run|
  {
    if run != [] {
      CondemnedKept(cfg, s, run[0], c);
      InvariantKept(cfg, s, run[0]);
      CondemnedAlong(cfg, Next(cfg, s, run[0]), run[1..], c);
    }
  }

  /**
   * A connection whose NOOP failed, that was put back with an error, whose
   * RSET failed, that is too old, or that was handed to a caller who had given
   * up, is never idle, in a channel or lent again, however the run goes on.
   */
  lemma DiscardedForGood(cfg: Config, run: seq<Action>, a: Action, c: Client, more: seq<Action>)
    requires Discards(Reached(cfg, run), a, c)
    ensures
      var s := Exec(Normalize(cfg), Next(Normalize(cfg), Reached(cfg, run), a), more);
      && c !in s.sh.idle && c !in s.loans
      && (forall ch :: Answerable(s.sh, ch) ==> s.sh.chans[ch].buffer.value != Some(c))
  {
    var n := Normalize(cfg);
    InvariantReached(cfg, run);
    DiscardCondemns(n, Reached(cfg, run), a, c);
    InvariantKept(n, Reached(cfg, run), a);
    CondemnedAlong(n, Next(n, Reached(cfg, run), a), more, c);
    var s := Exec(n, Next(n, Reached(cfg, run), a), more);
    forall i | 0 <= i < |s.sh.idle| ensures s.sh.idle[i] != c {
      assert At(s, IdleSlot(i)) != Some(c);
    }
    assert At(s, Loan(c)) != Some(c);
    forall ch | Answerable(s.sh, ch) ensures s.sh.chans[ch].buffer.value != Some(c) {
      assert At(s, Mailbox(ch)) != Some(c);
    }
  }

  // ---- and those that do ----

  /** The connection is nowhere any more, and its slot is free. */
  ghost predicate Released(s: Sys, s': Sys, c: Client) {
    (forall p :: At(s', p) != Some(c)) && s'.sh.open == s.sh.open - 1
  }

  /** `s'` follows from `s` by the last region of Put, and `sent` from `s'` by the send after it. */
  ghost predicate ComesBack(cfg: Config, s: Sys, s': Sys, sent: Sys, t: Thread, c: Client) {
    if s.sh.closed then Released(s, s', c) && Ph(s', t).Out?
    else if s.sh.waiters != [] then
      && Ph(s', t) == Handing(c, s.sh.waiters[0]) && s'.sh.waiters == s.sh.waiters[1..]
      && At(sent, Mailbox(s.sh.waiters[0])) == Some(c)
    else if |s.sh.idle| < cfg.maxIdle then s'.sh == s.sh.(idle := s.sh.idle + [c]) && Ph(s', t).Out?
    else Released(s, s', c) && Ph(s', t).Out?
  }

  /**
   * A healthy connection that is put back into an open pool goes to whoever
   * has waited longest; else it becomes the newest idle one if there is room;
   * else, or if the pool was closed, it is gone and its slot free.
   */
  lemma HealthyComesBack(cfg: Config, run: seq<Action>, t: Thread) returns (s': Sys, sent: Sys)
    requires Ph(Reached(cfg, run), t).Replacing?
    ensures s' == Next(Normalize(cfg), Reached(cfg, run), Replace(t)) && sent == Next(Normalize(cfg), s', Hand(t))
    ensures ComesBack(Normalize(cfg), Reached(cfg, run), s', sent, t, Ph(Reached(cfg, run), t).c)
  {
    InvariantReached(cfg, run);
    ComesBackFrom(Normalize(cfg), Reached(cfg, run), t);
    s', sent := ReplaceThenHand(Normalize(cfg), Reached(cfg, run), t);
  }

  lemma ReplaceThenHand(cfg: Config, s: Sys, t: Thread) returns (s': Sys, sent: Sys)
    ensures s' == DoReplace(cfg, s, t) == Next(cfg, s, Replace(t))
    ensures sent == DoHand(s', t) == Next(cfg, s', Hand(t))
  {
    s' := DoReplace(cfg, s, t);
    sent := DoHand(s', t);
  }

  lemma ComesBackFrom(cfg: Config, s: Sys, t: Thread)
    requires Invariant(cfg, s) && Ph(s, t).Replacing?
    ensures ComesBack(cfg, s, DoReplace(cfg, s, t), DoHand(DoReplace(cfg, s, t), t), t, Ph(s, t).c)
  {
    if s.sh.closed || (s.sh.waiters == [] && |s.sh.idle| >= cfg.maxIdle) {
      SlotIsHeld(cfg, s, t);
      Releases(s, DoReplace(cfg, s, t), t);
    } else if s.sh.waiters != [] {
      Passes(cfg, s, t);
    }
  }

  lemma SlotIsHeld(cfg: Config, s: Sys, t: Thread)
    requires Accounts(cfg, s) && Ph(s, t).Replacing?
    ensures s.sh.open > 0
  {
    assert t in Transit(s);
  }

  lemma Passes(cfg: Config, s: Sys, t: Thread)
    requires Invariant(cfg, s) && Ph(s, t).Replacing? && !s.sh.closed && s.sh.waiters != []
    ensures
      var s', c := DoReplace(cfg, s, t), Ph(s, t).c;
      && Ph(s', t) == Handing(c, s.sh.waiters[0]) && s'.sh.waiters == s.sh.waiters[1..]
      && At(DoHand(s', t), Mailbox(s.sh.waiters[0])) == Some(c)
  {
    assert s.sh.waiters[0] in s.sh.waiters;
    Handed(DoReplace(cfg, s, t), t, Ph(s, t).c, s.sh.waiters[0]);
  }

  lemma Handed(s: Sys, t: Thread, c: Client, ch: ChanId)
    requires Ph(s, t) == Handing(c, ch) && Fresh(s, ch)
    ensures At(DoHand(s, t), Mailbox(ch)) == Some(c)
  {
  }

  lemma Releases(s: Sys, s': Sys, t: Thread)
    requires Ownership(s) && Ph(s, t).Replacing? && s' == Go(s, DecOpen(s.sh), t, Out) && s.sh.open > 0
    ensures Released(s, s', Ph(s, t).c)
  {
    var c := Ph(s, t).c;
    DecOpenMovesNothing(s.sh);
    OnlyThere(s, c, Hands(t));
    forall p ensures At(s', p) != Some(c) {
      assert p == Hands(t) || At(s', p) == At(s, p) || At(s', p).None?;
    }
  }

  /** The steps of a Put that finds nothing wrong, as far as its last region. */
  function CleanPut(t: Thread, c: Client): seq<Action> {
    [StartPut(t, c, false), Forget(t), Settled(t, true)]
  }

  /** A connection that its caller puts back without an error and that is in order reaches the last region of Put. */
  lemma CleanPutReplaces(cfg: Config, s: Sys, t: Thread, c: Client)
    requires Ph(s, t).Out? && c in s.loans
    ensures
      var s' := Exec(cfg, s, CleanPut(t, c));
      && Ph(s', t) == Replacing(c) && s'.sh == s.sh.(active := s.sh.active - {c}) && s'.loans == s.loans - {c}
  {
    var s1 := Next(cfg, s, StartPut(t, c, false));
    var s2 := Next(cfg, s1, Forget(t));
    ThreeSteps(cfg, s, StartPut(t, c, false), Forget(t), Settled(t, true));
    assert Ph(s1, t) == Returning(c, false) && Ph(s2, t) == Settling(c, false);
  }

  lemma ThreeSteps(cfg: Config, s: Sys, a: Action, b: Action, c: Action)
    ensures Exec(cfg, s, [a, b, c]) == Next(cfg, Next(cfg, Next(cfg, s, a), b), c)
  {
    OneStep(cfg, s, a, [b, c]);
    OneStep(cfg, Next(cfg, s, a), b, [c]);
    OneStep(cfg, Next(cfg, Next(cfg, s, a), b), c, []);
    assert [a] + [b, c] == [a, b, c] && [b] + [c] == [b, c] && [c] + [] == [c];
  }

  lemma OneStep(cfg: Config, s: Sys, a: Action, run: seq<Action>)
    ensures Exec(cfg, s, [a] + run) == Exec(cfg, Next(cfg, s, a), run)
  {
    assert ([a] + run)[1..] == run;
  }

  /** An idle connection that passes its check is lent to the caller that checked it. */
  lemma AliveIsLent(cfg: Config, run: seq<Action>, t: Thread)
    requires Ph(Reached(cfg, run), t).Checking?
    ensures
      var s, n := Reached(cfg, run), Normalize(cfg);
      var c, s' := Ph(s, t).c, Next(n, Next(n, s, Checked(t, true)), Claim(t));
      && Lent(s, s', c) && Ph(s', t).Out? && s'.sh == s.sh.(active := s.sh.active + {c})
  {
    InvariantReached(cfg, run);
    var s := Reached(cfg, run);
    assert At(s, Hands(t)) == Some(Ph(s, t).c) && At(s, Loan(Ph(s, t).c)).None?;
  }
}
