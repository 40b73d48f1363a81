/**
 * The SMTP connection pool as a transition system.
 *
 * `Shared` is what the mutex protects. Each locked region of the pool is one
 * function from `Shared` to `Shared`; the class in PoolObject.dfy computes the
 * same regions in place. `Sys` adds what the mutex does not see: where every
 * goroutine stands between two regions, and which connections callers hold.
 */
module SmtpPool {
  import opened Prelude

  type Client = nat
  type ChanId = nat
  type Thread = nat

  datatype Config = Config(maxIdle: int, maxOpen: int, wait: bool)

  /** A non-positive MaxIdle is replaced when the pool is made. */
  function Normalize(c: Config): Config {
    if c.maxIdle <= 0 then c.(maxIdle := 2) else c
  }

  /**
   * A wait channel of capacity one. The buffer holds nothing, a nil wake-up
   * (`Some(None)`) or a connection. `owner` and `sends` are bookkeeping: who
   * made the channel, and how many values were ever sent on it.
   */
  datatype Chan = Chan(owner: Thread, buffer: Option<Option<Client>>, sends: nat)

  /**
   * The pool's fields. `floored` records that a defensive floor at zero was
   * needed; `stuck` records a send on a full channel, which would block while
   * the mutex is held.
   */
  datatype Shared = Shared(
    idle: seq<Client>,
    open: int,
    closed: bool,
    waiters: seq<ChanId>,
    active: set<Client>,
    chans: map<ChanId, Chan>,
    floored: bool,
    stuck: bool)

  // ---- locked regions ----

  function Send(sh: Shared, ch: ChanId, v: Option<Client>): Shared {
    if ch in sh.chans && sh.chans[ch].buffer.None? then
      var c := sh.chans[ch];
      sh.(chans := sh.chans[ch := Chan(c.owner, Some(v), c.sends + 1)])
    else
      sh.(stuck := true)
  }

  function SendNils(sh: Shared, ws: seq<ChanId>): Shared
    decreases |ws|
  {
    if ws == [] then sh else SendNils(Send(sh, ws[0], None), ws[1..])
  }

  function DecOpen(sh: Shared): Shared {
    var lowered := if sh.open > 0 then sh.(open := sh.open - 1) else sh.(floored := true);
    if |sh.waiters| > 0 then
      Send(lowered.(waiters := sh.waiters[1..]), sh.waiters[0], None)
    else
      lowered
  }

  datatype Grant = Closed | Reused(c: Client) | Full | Queued | Opened

  /** The region at the top of Get's loop. `ch` is the channel it makes if it must wait. */
  function Acquire(cfg: Config, sh: Shared, t: Thread, ch: ChanId): (Shared, Grant) {
    if sh.closed then
      (sh, Closed)
    else if |sh.idle| > 0 then
      (sh.(idle := sh.idle[..|sh.idle| - 1]), Reused(sh.idle[|sh.idle| - 1]))
    else if cfg.maxOpen > 0 && sh.open >= cfg.maxOpen then
      if !cfg.wait then
        (sh, Full)
      else
        (sh.(waiters := sh.waiters + [ch], chans := sh.chans[ch := Chan(t, None, 0)]), Queued)
    else
      (sh.(open := sh.open + 1), Opened)
  }

  /** The region that enters a connection in `active`. */
  function Enter(sh: Shared, c: Client): Shared {
    sh.(active := sh.active + {c})
  }

  /** The first region of Put. */
  function Leave(sh: Shared, c: Client): Shared {
    sh.(active := sh.active - {c})
  }

  /** Drops the first occurrence of `ch`, as the cancellation path does. */
  function Without(ws: seq<ChanId>, ch: ChanId): seq<ChanId> {
    if ws == [] then []
    else if ws[0] == ch then ws[1..]
    else [ws[0]] + Without(ws[1..], ch)
  }

  datatype Return = Late | Passed(ch: ChanId) | Surplus | Kept

  /** The last region of Put: where a healthy connection goes. */
  function GiveBack(cfg: Config, sh: Shared, c: Client): (Shared, Return) {
    if sh.closed then
      (DecOpen(sh), Late)
    else if |sh.waiters| > 0 then
      (sh.(waiters := sh.waiters[1..], active := sh.active + {c}), Passed(sh.waiters[0]))
    else if |sh.idle| >= cfg.maxIdle then
      (DecOpen(sh), Surplus)
    else
      (sh.(idle := sh.idle + [c]), Kept)
  }

  function Shut(sh: Shared): Shared {
    if sh.closed then
      sh
    else
      var rest := sh.open - |sh.idle|;
      SendNils(sh.(closed := true, idle := [],
                   open := if rest < 0 then 0 else rest,
                   floored := sh.floored || rest < 0),
               sh.waiters).(waiters := [])
  }

  // ---- goroutines ----

  /** Where a goroutine stands between two regions. */
  datatype Phase =
    | Out
    | Asking                                // top of Get's loop, first time or after a dead connection
    | Retrying                              // top of Get's loop, after a nil wake-up
    | Checking(c: Client)                   // popped from idle, NOOP outside the lock
    | Claiming(c: Client)                   // usable, about to be entered in active
    | Dialling
    | DialFailed
    | Dropping(c: Client, again: bool)      // closed, its slot not yet released; Get goes round again
    | Waiting(ch: ChanId)
    | Cancelling(ch: ChanId)                // context done, about to leave the queue
    | Draining(ch: ChanId)                  // already dequeued: blocking receive
    | Returning(c: Client, failed: bool)    // in Put, before its first region
    | Settling(c: Client, failed: bool)     // out of active; closing it or RSET
    | Replacing(c: Client)                  // RSET done, before Put's last region
    | Handing(c: Client, ch: ChanId)        // after unlock, before the send to a waiter

  datatype Sys = Sys(
    sh: Shared,
    phase: map<Thread, Phase>,
    loans: set<Client>,       // what callers hold
    nextClient: nat,
    nextChan: nat,
    swallowed: nat)           // nil wake-ups received by waiters that had given up

  function Init(): Sys {
    Sys(Shared([], 0, false, [], {}, map[], false, false), map[], {}, 0, 0, 0)
  }

  function Ph(s: Sys, t: Thread): Phase {
    if t in s.phase then s.phase[t] else Out
  }

  function Go(s: Sys, sh: Shared, t: Thread, p: Phase): Sys {
    s.(sh := sh, phase := s.phase[t := p])
  }

  datatype Action =
    | StartGet(t: Thread)
    | Lock(t: Thread)
    | Checked(t: Thread, alive: bool)
    | Claim(t: Thread)
    | Dialled(t: Thread, ok: bool)
    | Release(t: Thread)
    | Receive(t: Thread)
    | Cancel(t: Thread)
    | LeaveQueue(t: Thread)
    | Drain(t: Thread)
    | StartPut(t: Thread, c: Client, failed: bool)
    | Forget(t: Thread)
    | Settled(t: Thread, healthy: bool)
    | Replace(t: Thread)
    | Hand(t: Thread)
    | Close

  function DoLock(cfg: Config, s: Sys, t: Thread): Sys {
    if !Ph(s, t).Asking? && !Ph(s, t).Retrying? then s else
    var (sh, g) := Acquire(cfg, s.sh, t, s.nextChan);
    match g
    case Closed => Go(s, sh, t, Out)
    case Full => Go(s, sh, t, Out)
    case Reused(c) => Go(s, sh, t, Checking(c))
    case Queued => Go(s, sh, t, Waiting(s.nextChan)).(nextChan := s.nextChan + 1)
    case Opened => Go(s, sh, t, Dialling)
  }

  function DoClaim(s: Sys, t: Thread): Sys {
    match Ph(s, t)
    case Claiming(c) => Go(s, Enter(s.sh, c), t, Out).(loans := s.loans + {c})
    case _ => s
  }

  function DoDialled(s: Sys, t: Thread, ok: bool): Sys {
    if !Ph(s, t).Dialling? then s
    else if ok then Go(s, s.sh, t, Claiming(s.nextClient)).(nextClient := s.nextClient + 1)
    else Go(s, s.sh, t, DialFailed)
  }

  function DoRelease(s: Sys, t: Thread): Sys {
    match Ph(s, t)
    case DialFailed => Go(s, DecOpen(s.sh), t, Out)
    case Dropping(_, again) => Go(s, DecOpen(s.sh), t, if again then Asking else Out)
    case _ => s
  }

  /** Empties a channel that holds a value. */
  function Emptied(sh: Shared, ch: ChanId): Shared
    requires ch in sh.chans
  {
    sh.(chans := sh.chans[ch := sh.chans[ch].(buffer := None)])
  }

  predicate Answerable(sh: Shared, ch: ChanId) {
    ch in sh.chans && sh.chans[ch].buffer.Some?
  }

  function DoReceive(s: Sys, t: Thread): Sys {
    match Ph(s, t)
    case Waiting(ch) =>
      if !Answerable(s.sh, ch) then s else
      (match s.sh.chans[ch].buffer.value
       case None => Go(s, Emptied(s.sh, ch), t, Retrying)
       case Some(c) => Go(s, Emptied(s.sh, ch), t, Out).(loans := s.loans + {c}))
    case _ => s
  }

  function DoLeaveQueue(s: Sys, t: Thread): Sys {
    match Ph(s, t)
    case Cancelling(ch) =>
      if ch in s.sh.waiters then Go(s, s.sh.(waiters := Without(s.sh.waiters, ch)), t, Out)
      else Go(s, s.sh, t, Draining(ch))
    case _ => s
  }

  function DoDrain(s: Sys, t: Thread): Sys {
    match Ph(s, t)
    case Draining(ch) =>
      if !Answerable(s.sh, ch) then s else
      (match s.sh.chans[ch].buffer.value
       case None => Go(s, Emptied(s.sh, ch), t, Out).(swallowed := s.swallowed + 1)
       case Some(c) => Go(s, Emptied(s.sh, ch), t, Returning(c, true)))
    case _ => s
  }

  function DoStartPut(s: Sys, t: Thread, c: Client, failed: bool): Sys {
    if Ph(s, t).Out? && c in s.loans then
      Go(s, s.sh, t, Returning(c, failed)).(loans := s.loans - {c})
    else s
  }

  function DoForget(s: Sys, t: Thread): Sys {
    match Ph(s, t)
    case Returning(c, failed) => Go(s, Leave(s.sh, c), t, Settling(c, failed))
    case _ => s
  }

  /** `healthy` is false when the lifetime has passed or RSET fails. */
  function DoSettled(s: Sys, t: Thread, healthy: bool): Sys {
    match Ph(s, t)
    case Settling(c, failed) =>
      Go(s, s.sh, t, if failed || !healthy then Dropping(c, false) else Replacing(c))
    case _ => s
  }

  function DoReplace(cfg: Config, s: Sys, t: Thread): Sys {
    match Ph(s, t)
    case Replacing(c) =>
      var (sh, r) := GiveBack(cfg, s.sh, c);
      Go(s, sh, t, if r.Passed? then Handing(c, r.ch) else Out)
    case _ => s
  }

  function DoHand(s: Sys, t: Thread): Sys {
    match Ph(s, t)
    case Handing(c, ch) => Go(s, Send(s.sh, ch, Some(c)), t, Out)
    case _ => s
  }

  /** An action that is not enabled leaves the system as it is. */
  function Next(cfg: Config, s: Sys, a: Action): Sys {
    match a
    case StartGet(t) => if Ph(s, t).Out? then Go(s, s.sh, t, Asking) else s
    case Lock(t) => DoLock(cfg, s, t)
    case Checked(t, alive) =>
      (match Ph(s, t)
       case Checking(c) => Go(s, s.sh, t, if alive then Claiming(c) else Dropping(c, true))
       case _ => s)
    case Claim(t) => DoClaim(s, t)
    case Dialled(t, ok) => DoDialled(s, t, ok)
    case Release(t) => DoRelease(s, t)
    case Receive(t) => DoReceive(s, t)
    case Cancel(t) =>
      (match Ph(s, t)
       case Waiting(ch) => Go(s, s.sh, t, Cancelling(ch))
       case _ => s)
    case LeaveQueue(t) => DoLeaveQueue(s, t)
    case Drain(t) => DoDrain(s, t)
    case StartPut(t, c, failed) => DoStartPut(s, t, c, failed)
    case Forget(t) => DoForget(s, t)
    case Settled(t, healthy) => DoSettled(s, t, healthy)
    case Replace(t) => DoReplace(cfg, s, t)
    case Hand(t) => DoHand(s, t)
    case Close => s.(sh := Shut(s.sh))
  }

  /** Every interleaving is some list of actions. */
  function Exec(cfg: Config, s: Sys, run: seq<Action>): Sys {
    Fold((s: Sys, a: Action) => Next(cfg, s, a), s, run)
  }
}
