/** The pool itself: its fields, and each locked region computed in place. */
module PoolObject {
  import opened Prelude
  import opened SmtpPool

  class Pool {
    const config: Config
    var idle: seq<Client>
    var open: int
    var closed: bool
    var waiters: seq<ChanId>
    var active: set<Client>
    var chans: map<ChanId, Chan>
    ghost var floored: bool
    ghost var stuck: bool

    ghost function View(): Shared
      reads this
    {
      Shared(idle, open, closed, waiters, active, chans, floored, stuck)
    }

    constructor (cfg: Config)
      ensures View() == Init().sh && config == Normalize(cfg)
      ensures config == cfg.(maxIdle := if cfg.maxIdle <= 0 then 2 else cfg.maxIdle)
    {
      config := Normalize(cfg);
      idle, open, closed, waiters, active, chans := [], 0, false, [], {}, map[];
      floored, stuck := false, false;
    }

    /** A send on a channel; one that found the channel full would never return. */
    method Post(ch: ChanId, v: Option<Client>)
      modifies this`chans, this`stuck
      ensures View() == Send(old(View()), ch, v)
    {
      if ch in chans && chans[ch].buffer.None? {
        chans := chans[ch := Chan(chans[ch].owner, Some(v), chans[ch].sends + 1)];
      } else {
        stuck := true;
      }
    }

    method DecOpenLocked()
      modifies this
      ensures View() == DecOpen(old(View()))
    {
      if open > 0 {
        open := open - 1;
      } else {
        floored := true;
      }
      if |waiters| > 0 {
        var w := waiters[0];
        waiters := waiters[1..];
        Post(w, None);
      }
    }

    /** Get, from the lock to the unlock of one turn of its loop. */
    method TryGet(t: Thread, fresh_: ChanId) returns (g: Grant)
      modifies this
      ensures (View(), g) == Acquire(config, old(View()), t, fresh_)
    {
      if closed {
        return Closed;
      }
      if |idle| > 0 {
        var c := idle[|idle| - 1];
        idle := idle[..|idle| - 1];
        return Reused(c);
      }
      if config.maxOpen > 0 && open >= config.maxOpen {
        if !config.wait {
          return Full;
        }
        chans := chans[fresh_ := Chan(t, None, 0)];
        waiters := waiters + [fresh_];
        return Queued;
      }
      open := open + 1;
      return Opened;
    }

    /** A cancelled waiter searches the queue for its own channel. */
    method RemoveWaiter(ch: ChanId) returns (removed: bool)
      modifies this`waiters
      ensures removed == (ch in old(waiters))
      ensures View() == old(View()).(waiters := Without(old(waiters), ch))
    {
      removed := false;
      var i := 0;
      while i < |waiters|
        invariant 0 <= i <= |waiters| && waiters == old(waiters) && !removed
        invariant ch !in waiters[..i]
        invariant Without(waiters, ch) == waiters[..i] + Without(waiters[i..], ch)
      {
        if waiters[i] == ch {
          waiters := waiters[..i] + waiters[i + 1..];
          removed := true;
          break;
        }
        assert waiters[..i + 1] == waiters[..i] + [waiters[i]];
        i := i + 1;
      }
    }

    /** Get, once it has a usable connection. */
    method EnterActive(c: Client)
      modifies this`active
      ensures View() == Enter(old(View()), c)
    {
      active := active + {c};
    }

    /** Put, before it looks at the connection. */
    method LeaveActive(c: Client) returns (wasActive: bool)
      modifies this`active
      ensures wasActive == (c in old(active))
      ensures View() == Leave(old(View()), c)
    {
      wasActive := c in active;
      active := active - {c};
    }

    /** Put's last region; `r.Passed?` leaves the send to be done after the unlock. */
    method PutHealthy(c: Client) returns (r: Return)
      modifies this
      ensures (View(), r) == GiveBack(config, old(View()), c)
    {
      if closed {
        DecOpenLocked();
        return Late;
      }
      if |waiters| > 0 {
        var w := waiters[0];
        waiters := waiters[1..];
        active := active + {c};
        return Passed(w);
      }
      if |idle| >= config.maxIdle {
        DecOpenLocked();
        return Surplus;
      }
      idle := idle + [c];
      return Kept;
    }

    method Close()
      modifies this
      ensures View() == Shut(old(View()))
    {
      if closed {
        return;
      }
      closed := true;
      var quitting := idle;
      idle := [];
      open := open - |quitting|;
      if open < 0 {
        open := 0;
        floored := true;
      }
      ghost var before := View();
      for i := 0 to |waiters|
        invariant waiters == before.waiters
        invariant SendNils(View(), waiters[i..]) == SendNils(before, before.waiters)
      {
        Post(waiters[i], None);
      }
      waiters := [];
    }
  }
}
