/**
 * One IMAP FETCH: the server delivers messages, an indexer numbers them, a pool
 * of workers parses them, a collector gathers them by number, and the caller
 * gets them newest first.
 */
module ImapFetch {
  import opened Prelude

  datatype Mail = Mail(uid: nat, mailbox: string, content: string)

  /** What reading and parsing a message's one literal gives. */
  datatype Literal = ReadFails | Unparseable | Parsed(content: string)

  datatype Message = Missing | Message(uid: nat, literal: Literal)

  datatype Item = Item(idx: nat, msg: Message)

  /** A result; a failure's index is bookkeeping. */
  datatype Found = Failed(idx: nat) | Fetched(idx: nat, mail: Mail)

  datatype Phase = Ready | Has(item: Item) | Posting(found: Found) | Exited

  datatype Verdict = NoError | ReadError | ContextError | FetchError | BothErrors

  datatype Config = Config(limit: int, mailbox: string)

  /** The capacity of every channel: a limit below one is raised to one. */
  function Capacity(cfg: Config): nat {
    if cfg.limit < 1 then 1 else cfg.limit
  }

  const MAX_FETCH_WORKERS := 10

  /** The server's side: all it has sent, oldest first, and the channel FETCH writes to. */
  datatype Net = Net(delivered: seq<Message>, incoming: seq<Message>, done: bool, failed: bool)

  /** The indexer, with its private counter and the channel it feeds. */
  datatype Indexer = Indexer(next: nat, gaveUp: bool, done: bool, messages: seq<Item>)

  /** The results channel and the collector behind it. */
  datatype Collector = Collector(results: seq<Found>, closed: bool, collected: map<nat, Mail>, readFailed: bool,
                                 done: bool)

  datatype Sys = Sys(
    net: Net,
    ix: Indexer,
    workers: seq<Phase>,
    out: Collector,
    cancelled: bool,
    verdict: Option<Verdict>)     // set when fetch returns

  function Init(cfg: Config): Sys {
    var workers := Min(MAX_FETCH_WORKERS, Capacity(cfg));
    Sys(Net([], [], false, false), Indexer(0, false, false, []), seq(workers, _ => Ready),
        Collector([], false, map[], false, false), false, None)
  }

  datatype Action =
    | Deliver(msg: Message)
    | EndFetch(failed: bool)
    | Index(giveUp: bool)
    | Take(w: nat)
    | Work(w: nat)
    | Post(w: nat)
    | CloseResults
    | Collect
    | Cancel                        // of interest only until fetch returns
    | Return

  /** What a worker makes of an item. */
  function Yield(cfg: Config, item: Item): Option<Found> {
    match item.msg
    case Missing => None
    case Message(_, ReadFails) => Some(Failed(item.idx))
    case Message(_, Unparseable) => None
    case Message(uid, Parsed(content)) => Some(Fetched(item.idx, Mail(uid, cfg.mailbox, content)))
  }

  function DoIndex(cfg: Config, s: Sys, giveUp: bool): Sys {
    if s.ix.done then s
    else if s.net.incoming == [] then
      if s.net.done then s.(ix := s.ix.(done := true)) else s
    else
      var popped := s.net.(incoming := s.net.incoming[1..]);
      if s.ix.gaveUp then s.(net := popped)
      else if giveUp && s.cancelled then s.(net := popped, ix := s.ix.(gaveUp := true))
      else if |s.ix.messages| < Capacity(cfg) then
        s.(net := popped,
           ix := s.ix.(messages := s.ix.messages + [Item(s.ix.next, s.net.incoming[0])], next := s.ix.next + 1))
      else s
  }

  function Become(s: Sys, w: nat, p: Phase): Sys
    requires w < |s.workers|
  {
    s.(workers := s.workers[w := p])
  }

  function DoTake(s: Sys, w: nat): Sys {
    if w >= |s.workers| || !s.workers[w].Ready? then s
    else if s.ix.messages != [] then Become(s, w, Has(s.ix.messages[0])).(ix := s.ix.(messages := s.ix.messages[1..]))
    else if s.ix.done then Become(s, w, Exited)
    else s
  }

  function DoWork(cfg: Config, s: Sys, w: nat): Sys {
    if w >= |s.workers| || !s.workers[w].Has? then s
    else if s.cancelled then Become(s, w, Exited)
    else
      match Yield(cfg, s.workers[w].item)
      case None => Become(s, w, Ready)
      case Some(found) => Become(s, w, Posting(found))
  }

  function DoPost(cfg: Config, s: Sys, w: nat): Sys {
    if w < |s.workers| && s.workers[w].Posting? && |s.out.results| < Capacity(cfg) then
      Become(s, w, Ready).(out := s.out.(results := s.out.results + [s.workers[w].found]))
    else s
  }

  function Collected(out: Collector): Collector {
    if out.results != [] then
      match out.results[0]
      case Failed(_) => out.(results := out.results[1..], readFailed := true)
      case Fetched(i, mail) => out.(results := out.results[1..], collected := out.collected[i := mail])
    else if out.closed then out.(done := true)
    else out
  }

  function DoCollect(s: Sys): Sys {
    s.(out := Collected(s.out))
  }

  /** The error fetch returns, branch by branch. */
  function Judge(s: Sys): Verdict {
    if s.net.failed then
      if s.cancelled then (if s.out.readFailed then ReadError else ContextError)
      else if s.out.readFailed then BothErrors
      else FetchError
    else if s.cancelled && !s.out.readFailed then ContextError
    else if s.out.readFailed then ReadError
    else NoError
  }

  function Next(cfg: Config, s: Sys, a: Action): Sys {
    match a
    case Deliver(msg) =>
      if !s.net.done && |s.net.incoming| < Capacity(cfg) then
        s.(net := s.net.(delivered := s.net.delivered + [msg], incoming := s.net.incoming + [msg]))
      else s
    case EndFetch(failed) => if s.net.done then s else s.(net := s.net.(done := true, failed := failed))
    case Index(giveUp) => DoIndex(cfg, s, giveUp)
    case Take(w) => DoTake(s, w)
    case Work(w) => DoWork(cfg, s, w)
    case Post(w) => DoPost(cfg, s, w)
    case CloseResults =>
      if forall w :: 0 <= w < |s.workers| ==> s.workers[w].Exited? then s.(out := s.out.(closed := true)) else s
    case Collect => DoCollect(s)
    case Cancel => if s.verdict.Some? then s else s.(cancelled := true)
    case Return =>
      if s.out.done && s.net.done && s.verdict.None? then s.(verdict := Some(Judge(s))) else s
  }

  function Exec(cfg: Config, s: Sys, run: seq<Action>): Sys {
    Fold((s: Sys, a: Action) => Next(cfg, s, a), s, run)
  }

  // ---- invariants ----

  predicate Known(s: Sys, item: Item) {
    item.idx < s.ix.next && item.idx < |s.net.delivered| && item.msg == s.net.delivered[item.idx]
  }

  predicate Genuine(cfg: Config, s: Sys, found: Found) {
    found.idx < s.ix.next && found.idx < |s.net.delivered|
    && Yield(cfg, Item(found.idx, s.net.delivered[found.idx])) == Some(found)
  }

  /** The indexer has numbered the messages it took, and until it gives up the rest is still to come. */
  ghost predicate Tracking(s: Sys) {
    && s.ix.next <= |s.net.delivered|
    && (!s.ix.gaveUp ==> s.net.incoming == s.net.delivered[s.ix.next..])
  }

  /** Everything in the pipeline is a delivered message under its own number, or what that message yields. */
  ghost predicate Sound(cfg: Config, s: Sys) {
    && Tracking(s)
    && (forall item :: item in s.ix.messages ==> Known(s, item))
    && (forall item :: Has(item) in s.workers ==> Known(s, item))
    && (forall found :: Posting(found) in s.workers ==> Genuine(cfg, s, found))
    && (forall found :: found in s.out.results ==> Genuine(cfg, s, found))
    && (forall i :: i in s.out.collected ==> Genuine(cfg, s, Fetched(i, s.out.collected[i])))
    && (s.out.readFailed ==> exists i: nat :: Genuine(cfg, s, Failed(i)))
  }

  predicate Settled(s: Sys, found: Found) {
    match found
    case Failed(_) => s.out.readFailed
    case Fetched(i, mail) => i in s.out.collected && s.out.collected[i] == mail
  }

  /** Nothing is dropped: what an indexed message yields is still on its way or has been collected. */
  predicate Somewhere(cfg: Config, s: Sys, i: nat)
    requires i < |s.net.delivered|
  {
    var item := Item(i, s.net.delivered[i]);
    var found := Yield(cfg, item);
    found.Some? ==>
      || item in s.ix.messages || Has(item) in s.workers
      || Posting(found.value) in s.workers || found.value in s.out.results || Settled(s, found.value)
  }

  /** While nothing has been cancelled. */
  ghost predicate Complete(cfg: Config, s: Sys)
    requires Tracking(s)
  {
    && !s.ix.gaveUp
    && (forall i: nat :: i < s.ix.next ==> Somewhere(cfg, s, i))
    && (Exited in s.workers ==> s.ix.done && s.ix.messages == [])
  }

  ghost predicate Ordered(s: Sys) {
    && |s.workers| > 0
    && (s.ix.done ==> s.net.done && s.net.incoming == [])
    && (s.out.closed ==> forall w :: 0 <= w < |s.workers| ==> s.workers[w].Exited?)
    && (s.out.done ==> s.out.closed && s.out.results == [])
    && (s.net.failed ==> s.net.done)
  }

  /** Once fetch has returned, the pipeline is still and the verdict is the one then judged. */
  ghost predicate Returned(s: Sys) {
    s.verdict.Some? ==> s.out.done && s.net.done && s.verdict.value == Judge(s)
  }

  /** What is in the pipeline is always genuine, and until a cancellation it is all there is. */
  ghost predicate Intact(cfg: Config, s: Sys) {
    Sound(cfg, s) && (!s.cancelled ==> Complete(cfg, s))
  }

  ghost predicate Invariant(cfg: Config, s: Sys) {
    Ordered(s) && Returned(s) && Intact(cfg, s)
  }

  /** Phases of the other workers survive. */
  lemma OthersStay(workers: seq<Phase>, w: nat, p: Phase)
    requires w < |workers|
    ensures forall q :: q in workers && q != workers[w] ==> q in workers[w := p]
    ensures forall q :: q in workers[w := p] ==> q == p || q in workers
    ensures p in workers[w := p]
  {
    forall q | q in workers && q != workers[w] ensures q in workers[w := p] {
      var v :| 0 <= v < |workers| && workers[v] == q;
      assert workers[w := p][v] == q;
    }
    assert workers[w := p][w] == p;
  }

  lemma OrderedInWorker(s: Sys, s': Sys, w: nat)
    requires Ordered(s) && Returned(s)
    requires w < |s.workers| == |s'.workers| && !s.workers[w].Exited?
    requires s' == s.(workers := s'.workers, ix := s.ix.(messages := s'.ix.messages),
                      out := s.out.(results := s'.out.results))
    ensures Ordered(s') && Returned(s')
  {
    assert !s.out.closed;
  }

  lemma OrderedKept(cfg: Config, s: Sys, a: Action)
    requires Ordered(s) && Returned(s)
    ensures Ordered(Next(cfg, s, a)) && Returned(Next(cfg, s, a))
  {
    match a
    case Index(giveUp) => OrderedInIndexer(cfg, s, giveUp);
    case Take(w) => if DoTake(s, w) != s { OrderedInWorker(s, DoTake(s, w), w); }
    case Work(w) => if DoWork(cfg, s, w) != s { OrderedInWorker(s, DoWork(cfg, s, w), w); }
    case Post(w) => if DoPost(cfg, s, w) != s { OrderedInWorker(s, DoPost(cfg, s, w), w); }
    case Collect => OrderedInCollector(s);
    case _ =>
  }

  lemma OrderedInIndexer(cfg: Config, s: Sys, giveUp: bool)
    requires Ordered(s) && Returned(s)
    ensures Ordered(DoIndex(cfg, s, giveUp)) && Returned(DoIndex(cfg, s, giveUp))
  {
    if !s.ix.done {
      if s.net.incoming == [] {
        if s.net.done {}
      } else if s.ix.gaveUp {
      } else if giveUp && s.cancelled {
      } else if |s.ix.messages| < Capacity(cfg) {
      }
    }
  }

  lemma OrderedInCollector(s: Sys)
    requires Ordered(s) && Returned(s)
    ensures Ordered(DoCollect(s)) && Returned(DoCollect(s))
  {
    if s.out.results != [] {
      if s.out.results[0].Failed? {}
    } else if s.out.closed {
    }
  }

  /** The soundness of a step that does not deliver. */
  lemma SoundAfter(cfg: Config, s: Sys, s': Sys)
    requires Sound(cfg, s) && Tracking(s') && s'.net.delivered == s.net.delivered && s.ix.next <= s'.ix.next
    requires forall item :: item in s'.ix.messages ==> item in s.ix.messages || Known(s', item)
    requires forall item :: Has(item) in s'.workers ==> Has(item) in s.workers || item in s.ix.messages
    requires forall found :: Posting(found) in s'.workers ==> Posting(found) in s.workers || Genuine(cfg, s, found)
    requires forall found :: found in s'.out.results ==> found in s.out.results || Posting(found) in s.workers
    requires forall i :: i in s'.out.collected ==> Genuine(cfg, s, Fetched(i, s'.out.collected[i]))
    requires s'.out.readFailed && !s.out.readFailed ==> exists i: nat :: Genuine(cfg, s, Failed(i))
    ensures Sound(cfg, s')
  {
    if s'.out.readFailed {
      var i: nat :| Genuine(cfg, s, Failed(i));
      assert Genuine(cfg, s', Failed(i));
    }
  }

  /** Every hand-over along the pipeline is allowed, no loss is. */
  lemma NothingLost(cfg: Config, s: Sys, s': Sys, i: nat)
    requires i < s.ix.next <= |s.net.delivered| && s.net.delivered == s'.net.delivered && Somewhere(cfg, s, i)
    requires forall item :: item in s.ix.messages ==> item in s'.ix.messages || Has(item) in s'.workers
    requires forall item :: Has(item) in s.workers ==>
      Has(item) in s'.workers || Yield(cfg, item).None? || Posting(Yield(cfg, item).value) in s'.workers
    requires forall found :: Posting(found) in s.workers ==> Posting(found) in s'.workers || found in s'.out.results
    requires forall found :: found in s.out.results ==> found in s'.out.results || Settled(s', found)
    requires forall found :: Genuine(cfg, s, found) && Settled(s, found) ==> Settled(s', found)
    ensures Somewhere(cfg, s', i)
  {
    var found := Yield(cfg, Item(i, s.net.delivered[i]));
    if found.Some? && Settled(s, found.value) {
      assert Genuine(cfg, s, found.value);
    }
  }

  lemma DeliverKeeps(cfg: Config, s: Sys, msg: Message)
    requires Intact(cfg, s)
    ensures Intact(cfg, Next(cfg, s, Deliver(msg)))
  {
    var s' := Next(cfg, s, Deliver(msg));
    if s' != s {
      assert s'.net.delivered[s.ix.next..] == s.net.delivered[s.ix.next..] + [msg];
      if !s.cancelled {
        forall i: nat | i < s'.ix.next ensures Somewhere(cfg, s', i) { assert Somewhere(cfg, s, i); }
      }
      if s.out.readFailed {
        var i: nat :| Genuine(cfg, s, Failed(i));
        assert Genuine(cfg, s', Failed(i));
      }
    }
  }

  lemma IndexKeeps(cfg: Config, s: Sys, giveUp: bool)
    requires Intact(cfg, s)
    ensures Intact(cfg, DoIndex(cfg, s, giveUp))
  {
    var s' := DoIndex(cfg, s, giveUp);
    if s' != s {
      if !s.ix.gaveUp && s.net.incoming != [] {
        assert s.net.incoming[0] == s.net.delivered[s.ix.next];
        assert s.net.delivered[s.ix.next..][1..] == s.net.delivered[s.ix.next + 1..];
      }
      SoundAfter(cfg, s, s');
      if !s.cancelled { IndexLosesNothing(cfg, s, giveUp); }
    }
  }

  lemma IndexLosesNothing(cfg: Config, s: Sys, giveUp: bool)
    requires Intact(cfg, s) && !s.cancelled && Sound(cfg, DoIndex(cfg, s, giveUp))
    ensures Complete(cfg, DoIndex(cfg, s, giveUp))
  {
    var s' := DoIndex(cfg, s, giveUp);
    if s.net.incoming != [] {
      assert s.net.incoming[0] == s.net.delivered[s.ix.next];
      assert s' != s ==> Item(s.ix.next, s.net.incoming[0]) in s'.ix.messages;
    }
    forall i: nat | i < s'.ix.next ensures Somewhere(cfg, s', i) {
      if i < s.ix.next { NothingLost(cfg, s, s', i); }
    }
  }

  lemma TakeKeeps(cfg: Config, s: Sys, w: nat)
    requires Intact(cfg, s)
    ensures Intact(cfg, DoTake(s, w))
  {
    if w < |s.workers| && s.workers[w].Ready? {
      assert s.workers[w] in s.workers;
      if s.ix.messages != [] {
        OthersStay(s.workers, w, Has(s.ix.messages[0]));
        TookItem(cfg, s, DoTake(s, w), s.ix.messages[0]);
      } else if s.ix.done {
        OthersStay(s.workers, w, Exited);
        WorkerMoved(cfg, s, DoTake(s, w), Ready, Exited);
      }
    }
  }

  lemma TookItem(cfg: Config, s: Sys, s': Sys, item: Item)
    requires Intact(cfg, s) && s.ix.messages != [] && item == s.ix.messages[0]
    requires s' == s.(workers := s'.workers, ix := s.ix.(messages := s.ix.messages[1..]))
    requires forall q :: q in s.workers && q != Ready ==> q in s'.workers
    requires forall q :: q in s'.workers ==> q == Has(item) || q in s.workers
    requires Has(item) in s'.workers
    ensures Intact(cfg, s')
  {
    assert s.ix.messages == [item] + s'.ix.messages;
    SoundAfter(cfg, s, s');
    if !s.cancelled {
      forall i: nat | i < s'.ix.next ensures Somewhere(cfg, s', i) { NothingLost(cfg, s, s', i); }
    }
  }

  /** One worker went from phase `p` to `q`, with nothing lost by it unless there was a cancellation. */
  lemma WorkerMoved(cfg: Config, s: Sys, s': Sys, p: Phase, q: Phase)
    requires Intact(cfg, s) && p in s.workers && s' == s.(workers := s'.workers)
    requires forall r :: r in s.workers && r != p ==> r in s'.workers
    requires forall r :: r in s'.workers ==> r == q || r in s.workers
    requires q in s'.workers && !q.Has? && !p.Posting?
    requires q.Posting? ==> Genuine(cfg, s, q.found)
    requires !s.cancelled && p.Has? ==> Yield(cfg, p.item).None? || q == Posting(Yield(cfg, p.item).value)
    requires !s.cancelled && q.Exited? ==> s.ix.done && s.ix.messages == []
    ensures Intact(cfg, s')
  {
    SoundAfter(cfg, s, s');
    if !s.cancelled {
      forall i: nat | i < s'.ix.next ensures Somewhere(cfg, s', i) { NothingLost(cfg, s, s', i); }
    }
  }

  lemma WorkKeeps(cfg: Config, s: Sys, w: nat)
    requires Intact(cfg, s)
    ensures Intact(cfg, DoWork(cfg, s, w))
  {
    if w < |s.workers| && s.workers[w].Has? {
      var item := s.workers[w].item;
      assert Has(item) in s.workers;
      assert Known(s, item) && item == Item(item.idx, s.net.delivered[item.idx]);
      var after := if s.cancelled then Exited
                   else if Yield(cfg, item).None? then Ready else Posting(Yield(cfg, item).value);
      OthersStay(s.workers, w, after);
      assert DoWork(cfg, s, w) == Become(s, w, after);
      WorkerMoved(cfg, s, Become(s, w, after), Has(item), after);
    }
  }

  lemma PostKeeps(cfg: Config, s: Sys, w: nat)
    requires Intact(cfg, s)
    ensures Intact(cfg, DoPost(cfg, s, w))
  {
    if w < |s.workers| && s.workers[w].Posting? && |s.out.results| < Capacity(cfg) {
      var s' := DoPost(cfg, s, w);
      OthersStay(s.workers, w, Ready);
      assert s.workers[w] in s.workers && s.workers[w] == Posting(s.workers[w].found);
      SoundAfter(cfg, s, s');
      if !s.cancelled {
        forall i: nat | i < s'.ix.next ensures Somewhere(cfg, s', i) { NothingLost(cfg, s, s', i); }
      }
    }
  }

  lemma CollectKeeps(cfg: Config, s: Sys)
    requires Intact(cfg, s)
    ensures Intact(cfg, DoCollect(s))
  {
    var s' := DoCollect(s);
    if s.out.results != [] {
      var head := s.out.results[0];
      assert head in s.out.results && Genuine(cfg, s, head);
      assert s.out.results == [head] + s.out.results[1..];
      if head.Failed? {
        assert s'.out.collected == s.out.collected && s'.out.readFailed;
      } else {
        assert s'.out.collected == s.out.collected[head.idx := head.mail] && s'.out.readFailed == s.out.readFailed;
      }
      assert s'.out.results == s.out.results[1..] && Settled(s', head);
      Gathered(cfg, s, s', head);
    } else if s.out.closed {
      Stirred(cfg, s, s');
    }
  }

  lemma Gathered(cfg: Config, s: Sys, s': Sys, head: Found)
    requires Intact(cfg, s) && Genuine(cfg, s, head)
    requires s.out.results == [head] + s'.out.results && Settled(s', head)
    requires s' == s.(out := s.out.(results := s'.out.results, collected := s'.out.collected,
                                    readFailed := s'.out.readFailed))
    requires s'.out.readFailed == (s.out.readFailed || head.Failed?)
    requires s'.out.collected == if head.Failed? then s.out.collected else s.out.collected[head.idx := head.mail]
    ensures Intact(cfg, s')
  {
    forall found | Genuine(cfg, s, found) && Settled(s, found) ensures Settled(s', found) {
    }
    SoundAfter(cfg, s, s');
    if !s.cancelled {
      forall i: nat | i < s'.ix.next ensures Somewhere(cfg, s', i) { NothingLost(cfg, s, s', i); }
    }
  }

  /** Only flags changed. */
  lemma Stirred(cfg: Config, s: Sys, s': Sys)
    requires Intact(cfg, s) && (s.cancelled ==> s'.cancelled)
    requires s' == s.(net := s.net.(done := s'.net.done, failed := s'.net.failed), cancelled := s'.cancelled,
                      out := s.out.(closed := s'.out.closed, done := s'.out.done), verdict := s'.verdict)
    ensures Intact(cfg, s')
  {
    SoundAfter(cfg, s, s');
    if !s'.cancelled {
      forall i: nat | i < s'.ix.next ensures Somewhere(cfg, s', i) { assert Somewhere(cfg, s, i); }
    }
  }

  lemma IntactKept(cfg: Config, s: Sys, a: Action)
    requires Intact(cfg, s)
    ensures Intact(cfg, Next(cfg, s, a))
  {
    match a
    case Deliver(msg) => DeliverKeeps(cfg, s, msg);
    case Index(giveUp) => IndexKeeps(cfg, s, giveUp);
    case Take(w) => TakeKeeps(cfg, s, w);
    case Work(w) => WorkKeeps(cfg, s, w);
    case Post(w) => PostKeeps(cfg, s, w);
    case Collect => CollectKeeps(cfg, s);
    case _ => FlagsKeep(cfg, s, a);
  }

  lemma FlagsKeep(cfg: Config, s: Sys, a: Action)
    requires Intact(cfg, s) && (a.EndFetch? || a.CloseResults? || a.Cancel? || a.Return?)
    ensures Intact(cfg, Next(cfg, s, a))
  {
    Stirred(cfg, s, Next(cfg, s, a));
  }

  lemma InvariantKept(cfg: Config, s: Sys, a: Action)
    requires Invariant(cfg, s)
    ensures Invariant(cfg, Next(cfg, s, a))
  {
    OrderedKept(cfg, s, a);
    IntactKept(cfg, s, a);
  }

  lemma {:induction false} InvariantAlong(cfg: Config, s: Sys, run: seq<Action>)
    requires Invariant(cfg, s)
    ensures Invariant(cfg, Exec(cfg, s, run))
    decreases |run|
  {
    if run != [] {
      InvariantKept(cfg, s, run[0]);
      InvariantAlong(cfg, Next(cfg, s, run[0]), run[1..]);
    }
  }

  lemma InvariantReached(cfg: Config, run: seq<Action>)
    ensures Invariant(cfg, Exec(cfg, Init(cfg), run))
  {
    assert forall q :: q in Init(cfg).workers ==> q == Ready;
    InvariantAlong(cfg, Init(cfg), run);
  }

  // ---- the result ----

  /** The mails of the messages that could be parsed, in the order they were delivered. */
  function Mails(mailbox: string, delivered: seq<Message>): seq<Mail> {
    if delivered == [] then []
    else
      var last := delivered[|delivered| - 1];
      Mails(mailbox, delivered[..|delivered| - 1]) +
      if last.Message? && last.literal.Parsed? then [Mail(last.uid, mailbox, last.literal.content)] else []
  }

  predicate IsMailOf(mailbox: string, msg: Message, mail: Mail) {
    msg.Message? && msg.literal == Parsed(mail.content) && mail.uid == msg.uid && mail.mailbox == mailbox
  }

  function Reversed<T>(s: seq<T>): seq<T> {
    seq(|s|, i requires 0 <= i < |s| => s[|s| - 1 - i])
  }

  /** The last of `s` comes first in `r`, and so on. */
  ghost predicate Backwards<T>(s: seq<T>, r: seq<T>) {
    |r| == |s| && forall i :: 0 <= i < |s| ==> r[i] == s[|s| - 1 - i]
  }

  lemma ReversedIsBackwards<T>(s: seq<T>)
    ensures Backwards(s, Reversed(s))
  {
  }

  /** The entries of `m` below `n`, by index. */
  function ByIndex(m: map<nat, Mail>, n: nat): seq<Mail> {
    if n == 0 then [] else ByIndex(m, n - 1) + if n - 1 in m then [m[n - 1]] else []
  }

  /** The caller's list: put back into delivery order, and newest first unless there was an error. */
  method Gather(collected: map<nat, Mail>, failed: bool) returns (emails: array<Mail>)
    ensures fresh(emails)
    ensures forall n: nat :: (forall i :: i in collected ==> i < n) ==>
      emails[..] == if failed then ByIndex(collected, n) else Reversed(ByIndex(collected, n))
  {
    var maxIdx := 0;
    var keys := collected.Keys;
    while keys != {}
      invariant keys <= collected.Keys
      invariant forall i :: i in collected && i !in keys ==> i <= maxIdx
      decreases keys
    {
      var idx :| idx in keys;
      if idx > maxIdx {
        maxIdx := idx;
      }
      keys := keys - {idx};
    }
    var ordered: seq<Mail> := [];
    for i := 0 to maxIdx + 1
      invariant ordered == ByIndex(collected, i)
    {
      if i in collected {
        ordered := ordered + [collected[i]];
      }
    }
    forall n: nat | forall i :: i in collected ==> i < n ensures ByIndex(collected, n) == ordered {
      if n <= maxIdx + 1 {
        ByIndexStops(collected, n, maxIdx + 1);
      } else {
        ByIndexStops(collected, maxIdx + 1, n);
      }
    }
    emails := new Mail[|ordered|](i requires 0 <= i < |ordered| => ordered[i]);
    assert emails[..] == ordered;
    if !failed {
      ReverseInPlace(emails);
    }
  }

  lemma {:induction false} ByIndexStops(m: map<nat, Mail>, low: nat, high: nat)
    requires low <= high && forall i :: i in m ==> i < low
    ensures ByIndex(m, high) == ByIndex(m, low)
  {
    if low < high {
      ByIndexStops(m, low, high - 1);
    }
  }

  method ReverseInPlace(a: array<Mail>)
    modifies a
    ensures a[..] == Reversed(old(a[..]))
  {
    var i, j := 0, a.Length - 1;
    while i < j
      invariant 0 <= i <= a.Length && j == a.Length - 1 - i
      invariant forall k :: 0 <= k < a.Length ==>
        a[k] == if i <= k <= j then old(a[k]) else old(a[a.Length - 1 - k])
    {
      a[i], a[j] := a[j], a[i];
      i, j := i + 1, j - 1;
    }
  }

  lemma {:induction false} CollectedInOrder(mailbox: string, delivered: seq<Message>, m: map<nat, Mail>, n: nat)
    requires n <= |delivered|
    requires forall i: nat :: i < n ==>
      && (i in m ==> IsMailOf(mailbox, delivered[i], m[i]))
      && (delivered[i].Message? && delivered[i].literal.Parsed? ==> i in m)
    ensures ByIndex(m, n) == Mails(mailbox, delivered[..n])
  {
    if n > 0 {
      CollectedInOrder(mailbox, delivered, m, n - 1);
      assert delivered[..n][..n - 1] == delivered[..n - 1];
    }
  }

  /** At a return nothing is left in the pipeline that has not been cancelled. */
  lemma ReturnedComplete(cfg: Config, s: Sys)
    requires Invariant(cfg, s) && s.verdict.Some? && !s.cancelled
    ensures s.ix.next == |s.net.delivered|
    ensures forall i: nat :: i < |s.net.delivered| ==>
      var found := Yield(cfg, Item(i, s.net.delivered[i]));
      found.Some? ==> Settled(s, found.value)
  {
    assert s.workers[0].Exited? && s.workers[0] in s.workers;
    forall q | q in s.workers ensures q.Exited? {
    }
    forall i: nat | i < |s.net.delivered| && Yield(cfg, Item(i, s.net.delivered[i])).Some?
      ensures Settled(s, Yield(cfg, Item(i, s.net.delivered[i])).value)
    {
      assert Somewhere(cfg, s, i);
    }
  }

  predicate CannotBeRead(msg: Message) {
    msg.Message? && msg.literal.ReadFails?
  }

  predicate Readable(delivered: seq<Message>) {
    forall i: nat :: i < |delivered| ==> !CannotBeRead(delivered[i])
  }

  /** Every mail collected is that of the message delivered under its number, whatever was cancelled. */
  lemma CollectedIsGenuine(cfg: Config, run: seq<Action>)
    ensures
      var s := Exec(cfg, Init(cfg), run);
      forall i :: i in s.out.collected ==>
        i < |s.net.delivered| && IsMailOf(cfg.mailbox, s.net.delivered[i], s.out.collected[i])
    ensures
      var s := Exec(cfg, Init(cfg), run);
      s.out.readFailed ==> !Readable(s.net.delivered)
  {
    InvariantReached(cfg, run);
    var s := Exec(cfg, Init(cfg), run);
    forall i | i in s.out.collected
      ensures i < |s.net.delivered| && IsMailOf(cfg.mailbox, s.net.delivered[i], s.out.collected[i])
    {
      assert Genuine(cfg, s, Fetched(i, s.out.collected[i]));
    }
    if s.out.readFailed {
      var i: nat :| Genuine(cfg, s, Failed(i));
      assert CannotBeRead(s.net.delivered[i]);
    }
  }

  /** A read failure is reported exactly when some message could not be read, unless fetch was cancelled. */
  lemma ReadFailedIff(cfg: Config, run: seq<Action>)
    requires Exec(cfg, Init(cfg), run).verdict.Some? && !Exec(cfg, Init(cfg), run).cancelled
    ensures var s := Exec(cfg, Init(cfg), run); s.out.readFailed <==> !Readable(s.net.delivered)
  {
    var s := Exec(cfg, Init(cfg), run);
    CollectedIsGenuine(cfg, run);
    InvariantReached(cfg, run);
    ReturnedComplete(cfg, s);
    forall i: nat | i < |s.net.delivered| && CannotBeRead(s.net.delivered[i]) ensures s.out.readFailed {
      assert Yield(cfg, Item(i, s.net.delivered[i])) == Some(Failed(i));
    }
  }

  /**
   * Fetch returns without error exactly when nothing was cancelled before it
   * returned, FETCH succeeded and every body could be read.
   */
  lemma NoErrorIff(cfg: Config, run: seq<Action>)
    requires Exec(cfg, Init(cfg), run).verdict.Some?
    ensures var s := Exec(cfg, Init(cfg), run);
            s.verdict.value.NoError? <==> !s.cancelled && !s.net.failed && Readable(s.net.delivered)
  {
    InvariantReached(cfg, run);
    if !Exec(cfg, Init(cfg), run).cancelled {
      ReadFailedIff(cfg, run);
    }
  }

  /** Which error it is: what failed, and after a cancellation the context's unless a read had failed before. */
  lemma ErrorIs(cfg: Config, run: seq<Action>)
    requires Exec(cfg, Init(cfg), run).verdict.Some?
    ensures
      var s := Exec(cfg, Init(cfg), run);
      var read, fetched := Readable(s.net.delivered), !s.net.failed;
      && (!s.cancelled ==>
            && (s.verdict.value.ReadError? <==> fetched && !read)
            && (s.verdict.value.FetchError? <==> !fetched && read)
            && (s.verdict.value.BothErrors? <==> !fetched && !read))
      && (s.cancelled ==> s.verdict.value.ContextError? || (s.verdict.value.ReadError? && !read))
  {
    InvariantReached(cfg, run);
    CollectedIsGenuine(cfg, run);
    if !Exec(cfg, Init(cfg), run).cancelled {
      ReadFailedIff(cfg, run);
    }
  }

  /** Whatever the interleaving, the mails collected by index are then the parseable messages in delivery order. */
  lemma FetchIsScheduleIndependent(cfg: Config, run: seq<Action>)
    requires Exec(cfg, Init(cfg), run).verdict.Some? && !Exec(cfg, Init(cfg), run).cancelled
    ensures var s := Exec(cfg, Init(cfg), run);
            ByIndex(s.out.collected, |s.net.delivered|) == Mails(cfg.mailbox, s.net.delivered)
  {
    var s := Exec(cfg, Init(cfg), run);
    CollectedIsGenuine(cfg, run);
    InvariantReached(cfg, run);
    ReturnedComplete(cfg, s);
    forall i: nat | i < |s.net.delivered| && s.net.delivered[i].Message? && s.net.delivered[i].literal.Parsed?
      ensures i in s.out.collected
    {
      assert Yield(cfg, Item(i, s.net.delivered[i])).value.Fetched?;
    }
    CollectedInOrder(cfg.mailbox, s.net.delivered, s.out.collected, |s.net.delivered|);
    assert s.net.delivered[..|s.net.delivered|] == s.net.delivered;
  }

  /** The mails are those of the messages at some rising places. */
  ghost predicate Selects(mailbox: string, delivered: seq<Message>, places: seq<nat>, mails: seq<Mail>) {
    && |places| == |mails|
    && (forall j, k :: 0 <= j < k < |places| ==> places[j] < places[k])
    && (forall j :: 0 <= j < |places| ==>
          places[j] < |delivered| && IsMailOf(mailbox, delivered[places[j]], mails[j]))
  }

  lemma {:induction false} CollectedSelects(mailbox: string, delivered: seq<Message>, m: map<nat, Mail>, n: nat)
    returns (places: seq<nat>)
    requires n <= |delivered| && forall i: nat :: i < n && i in m ==> IsMailOf(mailbox, delivered[i], m[i])
    ensures Selects(mailbox, delivered, places, ByIndex(m, n))
    ensures forall j :: 0 <= j < |places| ==> places[j] < n
  {
    if n == 0 {
      places := [];
    } else {
      places := CollectedSelects(mailbox, delivered, m, n - 1);
      if n - 1 in m {
        places := places + [n - 1];
      }
    }
  }

  /**
   * From the server to the caller: no error means the parseable messages,
   * newest first; an error means delivery order, and after a cancellation
   * perhaps not all of them.
   */
  method FetchResult(cfg: Config, ghost run: seq<Action>, s: Sys) returns (emails: array<Mail>, ghost places: seq<nat>)
    requires s == Exec(cfg, Init(cfg), run) && s.verdict.Some?
    ensures s.verdict.value.NoError? ==> Backwards(Mails(cfg.mailbox, s.net.delivered), emails[..])
    ensures !s.verdict.value.NoError? && !s.cancelled ==> emails[..] == Mails(cfg.mailbox, s.net.delivered)
    ensures s.cancelled ==> Selects(cfg.mailbox, s.net.delivered, places, emails[..])
  {
    NoErrorIff(cfg, run);
    CollectedIsGenuine(cfg, run);
    if !s.cancelled {
      FetchIsScheduleIndependent(cfg, run);
    }
    places := CollectedSelects(cfg.mailbox, s.net.delivered, s.out.collected, |s.net.delivered|);
    emails := Gather(s.out.collected, !s.verdict.value.NoError?);
    ReversedIsBackwards(Mails(cfg.mailbox, s.net.delivered));
  }
}
