/** Each connection of the pool has exactly one owner in every reachable state. */
module PoolOwnership {
  import opened Prelude
  import opened SmtpPool

  /** Everywhere a connection can be. */
  datatype Place =
    | IdleSlot(i: nat)
    | Loan(c: Client)
    | Mailbox(ch: ChanId)
    | Hands(t: Thread)

  function HeldBy(p: Phase): Option<Client> {
    match p
    case Checking(c) => Some(c)
    case Claiming(c) => Some(c)
    case Dropping(c, _) => Some(c)
    case Returning(c, _) => Some(c)
    case Settling(c, _) => Some(c)
    case Replacing(c) => Some(c)
    case Handing(c, _) => Some(c)
    case _ => None
  }

  function At(s: Sys, p: Place): Option<Client> {
    match p
    case IdleSlot(i) => if i < |s.sh.idle| then Some(s.sh.idle[i]) else None
    case Loan(c) => if c in s.loans then Some(c) else None
    case Mailbox(ch) => if Answerable(s.sh, ch) then s.sh.chans[ch].buffer.value else None
    case Hands(t) => HeldBy(Ph(s, t))
  }

  /** The places whose connection the pool counts as active. */
  predicate Live(s: Sys, p: Place) {
    match p
    case IdleSlot(_) => false
    case Loan(_) => true
    case Mailbox(_) => true
    case Hands(t) => Ph(s, t).Returning? || Ph(s, t).Handing?
  }

  ghost predicate OneOwner(s: Sys) {
    forall p, q :: At(s, p).Some? && At(s, p) == At(s, q) ==> p == q
  }

  ghost predicate ActiveIsLive(s: Sys) {
    forall p :: At(s, p).Some? ==>
      At(s, p).value < s.nextClient && (At(s, p).value in s.sh.active <==> Live(s, p))
  }

  ghost predicate ActiveIsOwned(s: Sys) {
    forall c :: c in s.sh.active ==> exists p :: At(s, p) == Some(c)
  }

  ghost predicate Ownership(s: Sys) {
    OneOwner(s) && ActiveIsLive(s) && ActiveIsOwned(s)
  }

  /** Nothing outside `p` and `q` changed hands. */
  ghost predicate SameBut(s: Sys, s': Sys, p: Place, q: Place) {
    && (forall r :: r != p && r != q ==> At(s', r) == At(s, r) && Live(s', r) == Live(s, r))
    && s.nextClient <= s'.nextClient
  }

  ghost predicate SameActiveBut(s: Sys, s': Sys, c: Client) {
    forall d :: d != c ==> (d in s'.sh.active <==> d in s.sh.active)
  }

  lemma Witnesses(s: Sys, s': Sys, p: Place, q: Place)
    requires ActiveIsOwned(s) && SameBut(s, s', p, q)
    requires forall c :: c in s'.sh.active && c in s.sh.active ==>
      (At(s, p) == Some(c) ==> exists r :: At(s', r) == Some(c)) &&
      (At(s, q) == Some(c) ==> exists r :: At(s', r) == Some(c))
    requires forall c :: c in s'.sh.active && c !in s.sh.active ==> exists r :: At(s', r) == Some(c)
    ensures ActiveIsOwned(s')
  {
    forall c | c in s'.sh.active ensures exists r :: At(s', r) == Some(c) {
      if c in s.sh.active {
        var r :| At(s, r) == Some(c);
        if r != p && r != q {
          assert At(s', r) == Some(c);
        }
      }
    }
  }

  /** A connection went from `p` to `q`, perhaps becoming active or ceasing to be. */
  lemma Moved(s: Sys, s': Sys, p: Place, q: Place, c: Client)
    requires Ownership(s) && SameBut(s, s', p, q) && SameActiveBut(s, s', c)
    requires At(s, p) == Some(c) && At(s', q) == Some(c)
    requires p == q || (At(s, q).None? && At(s', p).None?)
    requires c in s'.sh.active <==> Live(s', q)
    ensures Ownership(s')
  {
    forall x, y | At(s', x).Some? && At(s', x) == At(s', y) ensures x == y {
      assert x == q || At(s, x) == At(s', x);
      assert y == q || At(s, y) == At(s', y);
    }
    forall x | At(s', x).Some?
      ensures At(s', x).value < s'.nextClient && (At(s', x).value in s'.sh.active <==> Live(s', x))
    {
      assert x == q || At(s, x) == At(s', x);
    }
    Witnesses(s, s', p, q);
  }

  /** The connection at `p` is gone for good. */
  lemma Vanished(s: Sys, s': Sys, p: Place, c: Client)
    requires Ownership(s) && SameBut(s, s', p, p)
    requires At(s, p) == Some(c) && At(s', p).None? && !Live(s, p)
    requires s'.sh.active == s.sh.active
    ensures Ownership(s')
  {
    forall x, y | At(s', x).Some? && At(s', x) == At(s', y) ensures x == y {
      assert At(s, x) == At(s', x) && At(s, y) == At(s', y);
    }
    Witnesses(s, s', p, p);
  }

  /** A connection never seen before appeared at `q`. */
  lemma Appeared(s: Sys, s': Sys, q: Place)
    requires Ownership(s) && SameBut(s, s', q, q)
    requires At(s, q).None? && At(s', q) == Some(s.nextClient) && !Live(s', q)
    requires s'.nextClient == s.nextClient + 1 && s'.sh.active == s.sh.active
    ensures Ownership(s')
  {
    forall x, y | At(s', x).Some? && At(s', x) == At(s', y) ensures x == y {
      assert x == q || At(s, x) == At(s', x);
      assert y == q || At(s, y) == At(s', y);
    }
    forall c | c in s.sh.active ensures c < s.nextClient {
      var r :| At(s, r) == Some(c);
    }
    Witnesses(s, s', q, q);
  }

  lemma Unmoved(s: Sys, s': Sys)
    requires Ownership(s) && s'.sh.active == s.sh.active && s'.nextClient == s.nextClient
    requires forall r :: At(s', r) == At(s, r) && (At(s, r).Some? ==> Live(s', r) == Live(s, r))
    ensures Ownership(s')
  {
    forall x, y | At(s', x).Some? && At(s', x) == At(s', y) ensures x == y {
      assert At(s, x) == At(s', x) && At(s, y) == At(s', y);
    }
    forall c | c in s'.sh.active ensures exists r :: At(s', r) == Some(c) {
      var r :| At(s, r) == Some(c);
      assert At(s', r) == Some(c);
    }
  }

  /** Only the goroutine `t` moved, and it held nothing before or after. */
  lemma EmptyHanded(s: Sys, s': Sys, t: Thread)
    requires Ownership(s)
    requires forall u :: u != t ==> Ph(s', u) == Ph(s, u)
    requires HeldBy(Ph(s, t)).None? && HeldBy(Ph(s', t)).None?
    requires s'.sh.idle == s.sh.idle && s'.sh.active == s.sh.active && s'.loans == s.loans
    requires s'.nextClient == s.nextClient
    requires forall x :: Answerable(s'.sh, x) ==> Answerable(s.sh, x) && s'.sh.chans[x].buffer == s.sh.chans[x].buffer
    requires forall x :: Answerable(s.sh, x) ==> Answerable(s'.sh, x)
    ensures Ownership(s')
  {
    Unmoved(s, s');
  }

  // ---- wake-ups carry no connection ----

  lemma NilMovesNothing(sh: Shared, ch: ChanId)
    ensures var sh' := Send(sh, ch, None);
            && sh'.idle == sh.idle && sh'.active == sh.active
            && sh'.waiters == sh.waiters && sh'.open == sh.open
            && forall x :: Answerable(sh, x) ==> Answerable(sh', x) && sh'.chans[x] == sh.chans[x]
    ensures forall x :: Answerable(Send(sh, ch, None), x) && !Answerable(sh, x) ==>
              Send(sh, ch, None).chans[x].buffer == Some(None)
  {
  }

  lemma {:induction false} NilsMoveNothing(sh: Shared, ws: seq<ChanId>)
    ensures var sh' := SendNils(sh, ws);
            && sh'.idle == sh.idle && sh'.active == sh.active
            && sh'.waiters == sh.waiters && sh'.open == sh.open
            && forall x :: Answerable(sh, x) ==> Answerable(sh', x) && sh'.chans[x] == sh.chans[x]
    ensures forall x :: Answerable(SendNils(sh, ws), x) && !Answerable(sh, x) ==>
              SendNils(sh, ws).chans[x].buffer == Some(None)
    decreases |ws|
  {
    if ws != [] {
      NilMovesNothing(sh, ws[0]);
      NilsMoveNothing(Send(sh, ws[0], None), ws[1..]);
    }
  }

  // ---- each action ----

  lemma LockKeeps(cfg: Config, s: Sys, t: Thread)
    requires Ownership(s) && (forall ch :: ch in s.sh.chans ==> ch < s.nextChan)
    ensures Ownership(DoLock(cfg, s, t))
  {
    var s' := DoLock(cfg, s, t);
    if Ph(s, t).Asking? || Ph(s, t).Retrying? {
      var n := |s.sh.idle|;
      if !s.sh.closed && n > 0 {
        assert At(s, IdleSlot(n - 1)) == Some(s.sh.idle[n - 1]);
        Moved(s, s', IdleSlot(n - 1), Hands(t), s.sh.idle[n - 1]);
      } else {
        EmptyHanded(s, s', t);
      }
    }
  }

  lemma ClaimKeeps(s: Sys, t: Thread)
    requires Ownership(s)
    ensures Ownership(DoClaim(s, t))
  {
    if Ph(s, t).Claiming? {
      var c := Ph(s, t).c;
      assert At(s, Hands(t)) == Some(c);
      assert At(s, Loan(c)).None?;
      Moved(s, DoClaim(s, t), Hands(t), Loan(c), c);
    }
  }

  lemma DialledKeeps(s: Sys, t: Thread, ok: bool)
    requires Ownership(s)
    ensures Ownership(DoDialled(s, t, ok))
  {
    if Ph(s, t).Dialling? {
      if ok {
        Appeared(s, DoDialled(s, t, ok), Hands(t));
      } else {
        Unmoved(s, DoDialled(s, t, ok));
      }
    }
  }

  lemma DecOpenMovesNothing(sh: Shared)
    ensures var sh' := DecOpen(sh);
            && sh'.idle == sh.idle && sh'.active == sh.active && sh'.closed == sh.closed
            && forall x :: Answerable(sh, x) ==> Answerable(sh', x) && sh'.chans[x] == sh.chans[x]
    ensures forall x :: Answerable(DecOpen(sh), x) && !Answerable(sh, x) ==>
              DecOpen(sh).chans[x].buffer == Some(None)
  {
    if |sh.waiters| > 0 {
      var lowered := if sh.open > 0 then sh.(open := sh.open - 1) else sh.(floored := true);
      NilMovesNothing(lowered.(waiters := sh.waiters[1..]), sh.waiters[0]);
    }
  }

  lemma ReleaseKeeps(s: Sys, t: Thread)
    requires Ownership(s)
    ensures Ownership(DoRelease(s, t))
  {
    var s' := DoRelease(s, t);
    DecOpenMovesNothing(s.sh);
    if Ph(s, t).Dropping? {
      Vanished(s, s', Hands(t), Ph(s, t).c);
    } else if Ph(s, t).DialFailed? {
      Unmoved(s, s');
    }
  }

  lemma ReceiveKeeps(s: Sys, t: Thread)
    requires Ownership(s)
    ensures Ownership(DoReceive(s, t))
  {
    var s' := DoReceive(s, t);
    if Ph(s, t).Waiting? && Answerable(s.sh, Ph(s, t).ch) {
      var ch := Ph(s, t).ch;
      match s.sh.chans[ch].buffer.value
      case None => Unmoved(s, s');
      case Some(c) =>
        assert At(s, Mailbox(ch)) == Some(c);
        assert At(s, Loan(c)).None?;
        Moved(s, s', Mailbox(ch), Loan(c), c);
    }
  }

  lemma DrainKeeps(s: Sys, t: Thread)
    requires Ownership(s)
    ensures Ownership(DoDrain(s, t))
  {
    var s' := DoDrain(s, t);
    if Ph(s, t).Draining? && Answerable(s.sh, Ph(s, t).ch) {
      var ch := Ph(s, t).ch;
      match s.sh.chans[ch].buffer.value
      case None => Unmoved(s, s');
      case Some(c) => Moved(s, s', Mailbox(ch), Hands(t), c);
    }
  }

  lemma PutKeeps(s: Sys, t: Thread, c: Client, failed: bool)
    requires Ownership(s)
    ensures Ownership(DoStartPut(s, t, c, failed))
    ensures Ownership(DoForget(s, t))
  {
    if Ph(s, t).Out? && c in s.loans {
      assert At(s, Loan(c)) == Some(c);
      Moved(s, DoStartPut(s, t, c, failed), Loan(c), Hands(t), c);
    }
    if Ph(s, t).Returning? {
      Moved(s, DoForget(s, t), Hands(t), Hands(t), Ph(s, t).c);
    }
  }

  lemma ReplaceKeeps(cfg: Config, s: Sys, t: Thread)
    requires Ownership(s)
    ensures Ownership(DoReplace(cfg, s, t))
  {
    if Ph(s, t).Replacing? {
      var c := Ph(s, t).c;
      assert At(s, Hands(t)) == Some(c);
      if s.sh.closed || (|s.sh.waiters| == 0 && |s.sh.idle| >= cfg.maxIdle) {
        DroppedOnReplace(s, Go(s, DecOpen(s.sh), t, Out), t, c);
      } else if |s.sh.waiters| > 0 {
        var sh := s.sh.(waiters := s.sh.waiters[1..], active := s.sh.active + {c});
        PassedOnReplace(s, Go(s, sh, t, Handing(c, s.sh.waiters[0])), t, c);
      } else {
        KeptOnReplace(s, Go(s, s.sh.(idle := s.sh.idle + [c]), t, Out), t, c);
      }
    }
  }

  lemma DroppedOnReplace(s: Sys, s': Sys, t: Thread, c: Client)
    requires Ownership(s) && Ph(s, t) == Replacing(c) && s' == Go(s, DecOpen(s.sh), t, Out)
    ensures Ownership(s')
  {
    DecOpenMovesNothing(s.sh);
    assert At(s, Hands(t)) == Some(c);
    Vanished(s, s', Hands(t), c);
  }

  lemma PassedOnReplace(s: Sys, s': Sys, t: Thread, c: Client)
    requires Ownership(s) && Ph(s, t) == Replacing(c) && |s.sh.waiters| > 0
    requires s' == Go(s, s.sh.(waiters := s.sh.waiters[1..], active := s.sh.active + {c}), t,
                      Handing(c, s.sh.waiters[0]))
    ensures Ownership(s')
  {
    assert At(s, Hands(t)) == Some(c);
    Moved(s, s', Hands(t), Hands(t), c);
  }

  lemma KeptOnReplace(s: Sys, s': Sys, t: Thread, c: Client)
    requires Ownership(s) && Ph(s, t) == Replacing(c)
    requires s' == Go(s, s.sh.(idle := s.sh.idle + [c]), t, Out)
    ensures Ownership(s')
  {
    assert At(s, Hands(t)) == Some(c);
    assert c !in s.sh.active;
    Moved(s, s', Hands(t), IdleSlot(|s.sh.idle|), c);
  }

  lemma HandKeeps(s: Sys, t: Thread)
    requires Ownership(s)
    requires Ph(s, t).Handing? ==>
      Ph(s, t).ch in s.sh.chans && s.sh.chans[Ph(s, t).ch].buffer.None?
    ensures Ownership(DoHand(s, t))
  {
    if Ph(s, t).Handing? {
      var ch := Ph(s, t).ch;
      Moved(s, DoHand(s, t), Hands(t), Mailbox(ch), Ph(s, t).c);
    }
  }

  /** What Close leaves where it was, and what it drops. */
  lemma ShutPlaces(s: Sys, s': Sys)
    requires !s.sh.closed && s' == s.(sh := Shut(s.sh))
    ensures s'.sh.active == s.sh.active
    ensures forall r: Place :: r.IdleSlot? ==> At(s', r).None?
    ensures forall r: Place :: !r.IdleSlot? ==> At(s', r) == At(s, r) && Live(s', r) == Live(s, r)
  {
    var rest := s.sh.open - |s.sh.idle|;
    NilsMoveNothing(s.sh.(closed := true, idle := [],
                    open := if rest < 0 then 0 else rest,
                    floored := s.sh.floored || rest < 0), s.sh.waiters);
  }

  lemma CloseKeeps(s: Sys)
    requires Ownership(s)
    ensures Ownership(s.(sh := Shut(s.sh)))
  {
    var s' := s.(sh := Shut(s.sh));
    if !s.sh.closed {
      ShutPlaces(s, s');
      OnlyIdleDropped(s, s');
    }
  }

  lemma OnlyIdleDropped(s: Sys, s': Sys)
    requires Ownership(s) && s'.sh.active == s.sh.active && s'.nextClient == s.nextClient
    requires forall r: Place :: r.IdleSlot? ==> At(s', r).None?
    requires forall r: Place :: !r.IdleSlot? ==> At(s', r) == At(s, r) && Live(s', r) == Live(s, r)
    ensures Ownership(s')
  {
    forall x, y | At(s', x).Some? && At(s', x) == At(s', y) ensures x == y {
      assert At(s, x) == At(s', x) && At(s, y) == At(s', y);
    }
    forall c | c in s'.sh.active ensures exists r :: At(s', r) == Some(c) {
      var r :| At(s, r) == Some(c);
      assert Live(s, r);
      assert At(s', r) == Some(c);
    }
  }

  lemma CheckedKeeps(cfg: Config, s: Sys, a: Action)
    requires Ownership(s) && (a.Checked? || a.Settled?)
    ensures Ownership(Next(cfg, s, a))
  {
    var p := Ph(s, a.t);
    if (a.Checked? && p.Checking?) || (a.Settled? && p.Settling?) {
      Moved(s, Next(cfg, s, a), Hands(a.t), Hands(a.t), p.c);
    }
  }

  lemma QueueKeeps(cfg: Config, s: Sys, a: Action)
    requires Ownership(s) && (a.StartGet? || a.Cancel? || a.LeaveQueue?)
    ensures Ownership(Next(cfg, s, a))
  {
    var p := Ph(s, a.t);
    if (a.StartGet? && p.Out?) || (a.Cancel? && p.Waiting?) || (a.LeaveQueue? && p.Cancelling?) {
      EmptyHanded(s, Next(cfg, s, a), a.t);
    }
  }

  lemma OwnershipKept(cfg: Config, s: Sys, a: Action)
    requires Ownership(s)
    requires forall ch :: ch in s.sh.chans ==> ch < s.nextChan
    requires forall t :: Ph(s, t).Handing? ==>
      Ph(s, t).ch in s.sh.chans && s.sh.chans[Ph(s, t).ch].buffer.None?
    ensures Ownership(Next(cfg, s, a))
  {
    match a
    case Lock(t) => LockKeeps(cfg, s, t);
    case Claim(t) => ClaimKeeps(s, t);
    case Dialled(t, ok) => DialledKeeps(s, t, ok);
    case Release(t) => ReleaseKeeps(s, t);
    case Receive(t) => ReceiveKeeps(s, t);
    case Drain(t) => DrainKeeps(s, t);
    case StartPut(t, c, failed) => PutKeeps(s, t, c, failed);
    case Forget(t) => PutKeeps(s, t, 0, false);
    case Replace(t) => ReplaceKeeps(cfg, s, t);
    case Hand(t) => HandKeeps(s, t);
    case Close => CloseKeeps(s);
    case Checked(_, _) => CheckedKeeps(cfg, s, a);
    case Settled(_, _) => CheckedKeeps(cfg, s, a);
    case _ => QueueKeeps(cfg, s, a);
  }
}
