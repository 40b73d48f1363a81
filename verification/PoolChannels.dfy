/** Wait channels: one value at most, never a blocked send, every receive answered. */
module PoolChannels {
  import opened Prelude
  import opened SmtpPool

  /** The channel a goroutine will receive from. */
  function WaitsOn(p: Phase): Option<ChanId> {
    match p
    case Waiting(ch) => Some(ch)
    case Cancelling(ch) => Some(ch)
    case Draining(ch) => Some(ch)
    case _ => None
  }

  ghost predicate InFlight(s: Sys, ch: ChanId) {
    exists t :: Ph(s, t).Handing? && Ph(s, t).ch == ch
  }

  predicate Fresh(s: Sys, ch: ChanId) {
    ch in s.sh.chans && s.sh.chans[ch].buffer.None? && s.sh.chans[ch].sends == 0
  }

  predicate OwnedBy(s: Sys, ch: ChanId, t: Thread) {
    ch in s.sh.chans && s.sh.chans[ch].owner == t
  }

  predicate OwnerWaits(s: Sys, ch: ChanId) {
    ch in s.sh.chans && WaitsOn(Ph(s, s.sh.chans[ch].owner)) == Some(ch)
  }

  ghost predicate QueueOk(s: Sys) {
    && (forall i, j :: 0 <= i < j < |s.sh.waiters| ==> s.sh.waiters[i] != s.sh.waiters[j])
    && (forall ch :: ch in s.sh.waiters ==>
          Fresh(s, ch) && OwnerWaits(s, ch) && !Ph(s, s.sh.chans[ch].owner).Draining?)
  }

  /** A channel about to be sent a connection is empty, out of the queue, and awaited. */
  predicate HandOk(s: Sys, t: Thread) {
    Ph(s, t).Handing? ==>
      Fresh(s, Ph(s, t).ch) && OwnerWaits(s, Ph(s, t).ch) && Ph(s, t).ch !in s.sh.waiters
  }

  predicate HandsApart(s: Sys, t: Thread, u: Thread) {
    Ph(s, t).Handing? && Ph(s, u).Handing? && Ph(s, t).ch == Ph(s, u).ch ==> t == u
  }

  ghost predicate CellsOk(s: Sys) {
    forall ch :: ch in s.sh.chans ==>
      && ch < s.nextChan
      && s.sh.chans[ch].sends <= 1
      && (s.sh.chans[ch].buffer.Some? ==> s.sh.chans[ch].sends == 1 && OwnerWaits(s, ch))
  }

  /** A waiting goroutine owns its channel and will be answered. */
  ghost predicate Answered(s: Sys, t: Thread) {
    var w := WaitsOn(Ph(s, t));
    w.Some? ==>
      && OwnedBy(s, w.value, t)
      && (Answerable(s.sh, w.value) || w.value in s.sh.waiters || InFlight(s, w.value))
  }

  ghost predicate Channels(s: Sys) {
    && QueueOk(s) && CellsOk(s)
    && (forall t :: Answered(s, t) && HandOk(s, t))
    && (forall t, u :: HandsApart(s, t, u))
    && !s.sh.stuck
  }

  // ---- helpers ----

  lemma {:induction false} WithoutSpec(ws: seq<ChanId>, ch: ChanId)
    requires forall i, j :: 0 <= i < j < |ws| ==> ws[i] != ws[j]
    ensures forall x :: x in Without(ws, ch) <==> x in ws && x != ch
    ensures forall i, j :: 0 <= i < j < |Without(ws, ch)| ==> Without(ws, ch)[i] != Without(ws, ch)[j]
  {
    if ws != [] {
      WithoutSpec(ws[1..], ch);
      assert ws == [ws[0]] + ws[1..];
      var r := Without(ws[1..], ch);
      assert forall k :: 0 <= k < |r| ==> r[k] in r && r[k] in ws[1..];
    }
  }

  /** Waking every waiter fills exactly their channels, each once. */
  lemma {:induction false} SendNilsSpec(sh: Shared, ws: seq<ChanId>)
    requires forall i, j :: 0 <= i < j < |ws| ==> ws[i] != ws[j]
    requires forall ch :: ch in ws ==> ch in sh.chans && sh.chans[ch].buffer.None?
    ensures var sh' := SendNils(sh, ws);
            && sh'.chans.Keys == sh.chans.Keys
            && sh'.stuck == sh.stuck && sh'.floored == sh.floored && sh'.closed == sh.closed
            && sh'.idle == sh.idle && sh'.open == sh.open && sh'.active == sh.active
            && forall ch :: ch in sh.chans ==>
                 sh'.chans[ch] ==
                   if ch in ws then Chan(sh.chans[ch].owner, Some(None), sh.chans[ch].sends + 1)
                   else sh.chans[ch]
    decreases |ws|
  {
    if ws != [] {
      var sh1 := Send(sh, ws[0], None);
      assert sh1.chans.Keys == sh.chans.Keys;
      assert ws == [ws[0]] + ws[1..];
      SendNilsSpec(sh1, ws[1..]);
    }
  }

  /** The goroutine `t` moved between phases that neither wait nor hand over. */
  lemma Quiet(s: Sys, s': Sys, t: Thread)
    requires Channels(s)
    requires forall u :: u != t ==> Ph(s', u) == Ph(s, u)
    requires WaitsOn(Ph(s', t)) == WaitsOn(Ph(s, t)) && !Ph(s, t).Handing? && !Ph(s', t).Handing?
    requires Ph(s', t).Draining? ==> Ph(s, t).Draining?
    requires s'.sh.chans == s.sh.chans && s'.sh.waiters == s.sh.waiters
    requires s'.sh.stuck == s.sh.stuck && s'.nextChan == s.nextChan
    ensures Channels(s')
  {
    forall x, y ensures HandsApart(s', x, y) {
      assert HandsApart(s, x, y);
    }
    forall u ensures Answered(s', u) && HandOk(s', u) {
      assert Answered(s, u) && HandOk(s, u);
      var w := WaitsOn(Ph(s, u));
      if w.Some? && InFlight(s, w.value) {
        var v :| Ph(s, v).Handing? && Ph(s, v).ch == w.value;
        assert Ph(s', v) == Ph(s, v);
      }
    }
  }

  // ---- each action ----

  /** A goroutine joined the queue with a channel of its own. */
  lemma Joined(s: Sys, s': Sys, t: Thread)
    requires Channels(s)
    requires WaitsOn(Ph(s, t)).None? && !Ph(s, t).Handing?
    requires forall u :: u != t ==> Ph(s', u) == Ph(s, u)
    requires Ph(s', t) == Waiting(s.nextChan) && s'.nextChan == s.nextChan + 1
    requires s'.sh.waiters == s.sh.waiters + [s.nextChan] && !s'.sh.stuck
    requires s'.sh.chans == s.sh.chans[s.nextChan := Chan(t, None, 0)]
    ensures Channels(s')
  {
    assert forall k :: 0 <= k < |s.sh.waiters| ==> s.sh.waiters[k] in s.sh.waiters;
    forall x, y ensures HandsApart(s', x, y) {
      assert HandsApart(s, x, y);
    }
    forall u ensures Answered(s', u) && HandOk(s', u) {
      assert Answered(s, u) && HandOk(s, u);
      var w := WaitsOn(Ph(s, u));
      if u != t && w.Some? && InFlight(s, w.value) {
        var v :| Ph(s, v).Handing? && Ph(s, v).ch == w.value;
        assert Ph(s', v) == Ph(s, v);
      }
    }
  }

  lemma LockKeeps(cfg: Config, s: Sys, t: Thread)
    requires Channels(s)
    ensures Channels(DoLock(cfg, s, t))
  {
    var s' := DoLock(cfg, s, t);
    if Ph(s, t).Asking? || Ph(s, t).Retrying? {
      if Acquire(cfg, s.sh, t, s.nextChan).1.Queued? {
        Joined(s, s', t);
      } else {
        Quiet(s, s', t);
      }
    }
  }

  /** Connections on their way stay so when `t` has none to send. */
  lemma StillInFlight(s: Sys, s': Sys, t: Thread)
    requires (forall u :: u != t ==> Ph(s', u) == Ph(s, u)) && !Ph(s, t).Handing?
    ensures forall ch :: InFlight(s, ch) ==> InFlight(s', ch)
  {
    forall ch | InFlight(s, ch) ensures InFlight(s', ch) {
      var v :| Ph(s, v).Handing? && Ph(s, v).ch == ch;
      assert Ph(s', v) == Ph(s, v);
    }
  }

  /** The head of the queue was sent a nil. */
  ghost predicate Woken(s: Sys, s': Sys, t: Thread, head: ChanId) {
    && |s.sh.waiters| > 0 && head == s.sh.waiters[0] && head in s.sh.chans
    && (forall u :: u != t ==> Ph(s', u) == Ph(s, u))
    && WaitsOn(Ph(s', t)).None? && WaitsOn(Ph(s, t)).None?
    && !Ph(s, t).Handing? && !Ph(s', t).Handing?
    && s'.nextChan == s.nextChan && !s'.sh.stuck && s'.sh.waiters == s.sh.waiters[1..]
    && s'.sh.chans == s.sh.chans[head := Chan(s.sh.chans[head].owner, Some(None), 1)]
  }

  lemma WokenAnswered(s: Sys, s': Sys, t: Thread, head: ChanId, u: Thread)
    requires QueueOk(s) && Woken(s, s', t, head) && Answered(s, u) && HandOk(s, u)
    ensures Answered(s', u) && HandOk(s', u)
  {
    assert s.sh.waiters == [head] + s'.sh.waiters;
    StillInFlight(s, s', t);
  }

  lemma WokenCells(s: Sys, s': Sys, t: Thread, head: ChanId)
    requires QueueOk(s) && CellsOk(s) && Woken(s, s', t, head)
    ensures CellsOk(s')
  {
    assert head in s.sh.waiters;
  }

  lemma WokenQueue(s: Sys, s': Sys, t: Thread, head: ChanId)
    requires QueueOk(s) && Woken(s, s', t, head)
    ensures QueueOk(s')
  {
    assert s.sh.waiters == [head] + s'.sh.waiters;
  }

  lemma WokeHead(s: Sys, s': Sys, t: Thread, head: ChanId)
    requires Channels(s) && Woken(s, s', t, head)
    ensures Channels(s')
  {
    WokenQueue(s, s', t, head);
    WokenCells(s, s', t, head);
    forall x, y ensures HandsApart(s', x, y) {
      assert HandsApart(s, x, y);
    }
    forall u ensures Answered(s', u) && HandOk(s', u) {
      assert Answered(s, u) && HandOk(s, u);
      WokenAnswered(s, s', t, head, u);
    }
  }

  /** Releasing a slot wakes the head of the queue, if there is one. */
  lemma DecKeeps(s: Sys, s': Sys, t: Thread)
    requires Channels(s)
    requires forall u :: u != t ==> Ph(s', u) == Ph(s, u)
    requires WaitsOn(Ph(s', t)).None? && WaitsOn(Ph(s, t)).None?
    requires !Ph(s, t).Handing? && !Ph(s', t).Handing?
    requires s'.nextChan == s.nextChan && s'.sh == DecOpen(s.sh)
    ensures Channels(s')
  {
    if |s.sh.waiters| == 0 {
      Quiet(s, s', t);
    } else {
      assert s.sh.waiters[0] in s.sh.waiters;
      WokeHead(s, s', t, s.sh.waiters[0]);
    }
  }

  /** Taking the value out of its channel, by its owner. */
  lemma TakeKeeps(s: Sys, s': Sys, t: Thread, ch: ChanId)
    requires Channels(s)
    requires WaitsOn(Ph(s, t)) == Some(ch) && Answerable(s.sh, ch)
    requires forall u :: u != t ==> Ph(s', u) == Ph(s, u)
    requires WaitsOn(Ph(s', t)).None? && !Ph(s', t).Handing?
    requires s'.nextChan == s.nextChan && s'.sh == Emptied(s.sh, ch)
    ensures Channels(s')
  {
    assert Answered(s, t);
    forall x, y ensures HandsApart(s', x, y) {
      assert HandsApart(s, x, y);
    }
    forall u ensures Answered(s', u) && HandOk(s', u) {
      assert Answered(s, u) && HandOk(s, u);
      var w := WaitsOn(Ph(s, u));
      if w.Some? && InFlight(s, w.value) {
        var v :| Ph(s, v).Handing? && Ph(s, v).ch == w.value;
        assert Ph(s', v) == Ph(s, v);
      }
    }
  }

  lemma LeaveKeeps(s: Sys, t: Thread)
    requires Channels(s)
    ensures Channels(DoLeaveQueue(s, t))
  {
    var s' := DoLeaveQueue(s, t);
    if Ph(s, t).Cancelling? {
      var ch := Ph(s, t).ch;
      WithoutSpec(s.sh.waiters, ch);
      assert Answered(s, t);
      forall x, y ensures HandsApart(s', x, y) {
        assert HandsApart(s, x, y);
      }
      forall u ensures Answered(s', u) && HandOk(s', u) {
        assert Answered(s, u) && HandOk(s, u);
        var w := WaitsOn(Ph(s, u));
        if w.Some? && InFlight(s, w.value) {
          var v :| Ph(s, v).Handing? && Ph(s, v).ch == w.value;
          assert Ph(s', v) == Ph(s, v);
        }
      }
    }
  }

  /** Put dequeued `ch` and will send to it after the unlock. */
  ghost predicate Promises(s: Sys, s': Sys, t: Thread, ch: ChanId) {
    && |s.sh.waiters| > 0 && ch == s.sh.waiters[0]
    && WaitsOn(Ph(s, t)).None? && !Ph(s, t).Handing?
    && (forall u :: u != t ==> Ph(s', u) == Ph(s, u))
    && Ph(s', t).Handing? && Ph(s', t).ch == ch && s'.nextChan == s.nextChan
    && s'.sh.waiters == s.sh.waiters[1..] && s'.sh.chans == s.sh.chans && !s'.sh.stuck
  }

  lemma PromisedAnswered(s: Sys, s': Sys, t: Thread, ch: ChanId, u: Thread)
    requires QueueOk(s) && Promises(s, s', t, ch) && Answered(s, u) && HandOk(s, u)
    ensures Answered(s', u) && HandOk(s', u)
  {
    assert ch in s.sh.waiters;
    assert s.sh.waiters == [ch] + s'.sh.waiters;
    StillInFlight(s, s', t);
    assert InFlight(s', ch);
  }

  lemma Promised(s: Sys, s': Sys, t: Thread, ch: ChanId)
    requires Channels(s) && Promises(s, s', t, ch)
    ensures Channels(s')
  {
    assert ch in s.sh.waiters;
    assert s.sh.waiters == [ch] + s'.sh.waiters;
    assert forall x :: x in s'.sh.waiters ==> x in s.sh.waiters && x != ch;
    forall x, y ensures HandsApart(s', x, y) {
      assert HandsApart(s, x, y) && HandOk(s, x) && HandOk(s, y);
    }
    forall u ensures Answered(s', u) && HandOk(s', u) {
      assert Answered(s, u) && HandOk(s, u);
      PromisedAnswered(s, s', t, ch, u);
    }
  }

  lemma ReplaceKeeps(cfg: Config, s: Sys, t: Thread)
    requires Channels(s)
    ensures Channels(DoReplace(cfg, s, t))
  {
    var s' := DoReplace(cfg, s, t);
    if Ph(s, t).Replacing? {
      var c := Ph(s, t).c;
      match GiveBack(cfg, s.sh, c).1
      case Late => DecKeeps(s, s', t);
      case Surplus => DecKeeps(s, s', t);
      case Kept => Quiet(s, s', t);
      case Passed(ch) => Promised(s, s', t, ch);
    }
  }

  lemma HandKeeps(s: Sys, t: Thread)
    requires Channels(s)
    ensures Channels(DoHand(s, t))
  {
    var s' := DoHand(s, t);
    if Ph(s, t).Handing? {
      assert HandOk(s, t);
      forall x, y ensures HandsApart(s', x, y) {
        assert HandsApart(s, x, y);
      }
      forall u ensures Answered(s', u) && HandOk(s', u) {
        assert Answered(s, u) && HandOk(s, u) && HandsApart(s, t, u);
        var w := WaitsOn(Ph(s, u));
        if w.Some? && InFlight(s, w.value) {
          var v :| Ph(s, v).Handing? && Ph(s, v).ch == w.value;
          if v != t { assert Ph(s', v) == Ph(s, v); }
        }
      }
    }
  }

  lemma CloseKeeps(s: Sys)
    requires Channels(s)
    ensures Channels(s.(sh := Shut(s.sh)))
  {
    var s' := s.(sh := Shut(s.sh));
    if !s.sh.closed {
      var rest := s.sh.open - |s.sh.idle|;
      SendNilsSpec(s.sh.(closed := true, idle := [],
                   open := if rest < 0 then 0 else rest,
                   floored := s.sh.floored || rest < 0), s.sh.waiters);
      forall x, y ensures HandsApart(s', x, y) {
        assert HandsApart(s, x, y);
      }
      forall u ensures Answered(s', u) && HandOk(s', u) {
        assert Answered(s, u) && HandOk(s, u);
        var w := WaitsOn(Ph(s, u));
        if w.Some? && InFlight(s, w.value) {
          var v :| Ph(s, v).Handing? && Ph(s, v).ch == w.value;
          assert Ph(s', v) == Ph(s, v);
        }
      }
    }
  }

  lemma QuietActionKeeps(cfg: Config, s: Sys, a: Action)
    requires Channels(s)
    requires a.StartGet? || a.Checked? || a.Claim? || a.Dialled? || a.Cancel? || a.StartPut? || a.Forget? || a.Settled?
    ensures Channels(Next(cfg, s, a))
  {
    if Next(cfg, s, a) != s {
      Quiet(s, Next(cfg, s, a), a.t);
    }
  }

  lemma ReleaseKeeps(s: Sys, t: Thread)
    requires Channels(s)
    ensures Channels(DoRelease(s, t))
  {
    if Ph(s, t).DialFailed? || Ph(s, t).Dropping? {
      DecKeeps(s, DoRelease(s, t), t);
    }
  }

  lemma ReceiveKeeps(s: Sys, t: Thread)
    requires Channels(s)
    ensures Channels(DoReceive(s, t)) && Channels(DoDrain(s, t))
  {
    var w := WaitsOn(Ph(s, t));
    if w.Some? && Answerable(s.sh, w.value) {
      if Ph(s, t).Waiting? {
        TakeKeeps(s, DoReceive(s, t), t, w.value);
      } else if Ph(s, t).Draining? {
        TakeKeeps(s, DoDrain(s, t), t, w.value);
      }
    }
  }

  lemma ChannelsKept(cfg: Config, s: Sys, a: Action)
    requires Channels(s)
    ensures Channels(Next(cfg, s, a))
  {
    match a
    case Lock(t) => LockKeeps(cfg, s, t);
    case Release(t) => ReleaseKeeps(s, t);
    case Receive(t) => ReceiveKeeps(s, t);
    case LeaveQueue(t) => LeaveKeeps(s, t);
    case Drain(t) => ReceiveKeeps(s, t);
    case Replace(t) => ReplaceKeeps(cfg, s, t);
    case Hand(t) => HandKeeps(s, t);
    case Close => CloseKeeps(s);
    case _ => QuietActionKeeps(cfg, s, a);
  }
}
