/** Once FETCH has ended, fetch goes on until it returns: no goroutine waits for another that waits for it. */
module FetchProgress {
  import opened Prelude
  import opened ImapFetch

  /** A step of the indexer, a worker, the collector or the caller. */
  predicate Internal(a: Action) {
    a.Index? || a.Take? || a.Work? || a.Post? || a.CloseResults? || a.Collect? || a.Return?
  }

  // ---- what is left to do ----

  function Left(p: Phase): nat {
    match p
    case Exited => 0
    case Ready => 1
    case Posting(_) => 3
    case Has(_) => 4
  }

  function LeftIn(workers: seq<Phase>): nat {
    if workers == [] then 0 else Left(workers[0]) + LeftIn(workers[1..])
  }

  function Flag(done: bool): nat {
    if done then 0 else 1
  }

  /** Steps that are left at most, if nothing more is delivered. */
  function Measure(s: Sys): nat {
    5 * |s.net.incoming| + 4 * |s.ix.messages| + |s.out.results| + LeftIn(s.workers)
    + Flag(s.ix.done) + Flag(s.out.closed) + Flag(s.out.done) + Flag(s.verdict.Some?)
  }

  lemma {:induction false} LeftAfter(workers: seq<Phase>, w: nat, p: Phase)
    requires w < |workers|
    ensures LeftIn(workers[w := p]) == LeftIn(workers) - Left(workers[w]) + Left(p)
    decreases |workers|
  {
    var rest := workers[1..];
    if w == 0 {
      assert workers[0 := p][1..] == rest;
    } else {
      assert workers[w := p][1..] == rest[w - 1 := p];
      LeftAfter(rest, w - 1, p);
    }
  }

  ghost predicate Lowers(s: Sys, s': Sys) {
    s' == s || Measure(s') < Measure(s)
  }

  lemma WorkerLowers(cfg: Config, s: Sys, w: nat)
    ensures Lowers(s, DoTake(s, w)) && Lowers(s, DoWork(cfg, s, w)) && Lowers(s, DoPost(cfg, s, w))
  {
    if w < |s.workers| {
      if s.workers[w].Ready? && s.ix.messages != [] {
        LeftAfter(s.workers, w, Has(s.ix.messages[0]));
      }
      LeftAfter(s.workers, w, Exited);
      LeftAfter(s.workers, w, Ready);
      if s.workers[w].Has? && Yield(cfg, s.workers[w].item).Some? {
        LeftAfter(s.workers, w, Posting(Yield(cfg, s.workers[w].item).value));
      }
    }
  }

  lemma IndexLowers(cfg: Config, s: Sys, giveUp: bool)
    ensures Lowers(s, DoIndex(cfg, s, giveUp))
  {
  }

  /** Every step that changes anything brings fetch closer to its end. */
  lemma StepLowers(cfg: Config, s: Sys, a: Action)
    requires Internal(a)
    ensures Lowers(s, Next(cfg, s, a))
  {
    match a
    case Index(giveUp) => IndexLowers(cfg, s, giveUp);
    case Take(w) => WorkerLowers(cfg, s, w);
    case Work(w) => WorkerLowers(cfg, s, w);
    case Post(w) => WorkerLowers(cfg, s, w);
    case CloseResults =>
    case Collect =>
    case Return =>
  }

  // ---- somebody can always go on ----

  /** FETCH has ended, or has left something to be indexed. */
  predicate Pending(s: Sys) {
    s.verdict.None? && (s.net.done || s.net.incoming != [])
  }

  ghost predicate Enabled(cfg: Config, s: Sys, a: Action) {
    Internal(a) && Next(cfg, s, a) != s
  }

  /** A worker that has not exited goes on, unless the indexer or the collector has to first. */
  lemma WorkerGoesOn(cfg: Config, s: Sys, w: nat) returns (a: Action)
    requires w < |s.workers| && !s.workers[w].Exited?
    requires s.workers[w].Ready? ==> s.ix.messages != [] || s.ix.done
    ensures Enabled(cfg, s, a)
  {
    match s.workers[w]
    case Ready =>
      a := Take(w);
      assert DoTake(s, w).workers[w] != Ready;
    case Has(item) =>
      a := Work(w);
      assert !DoWork(cfg, s, w).workers[w].Has?;
    case Posting(found) =>
      if s.out.results != [] {
        a := Collect;
        assert |DoCollect(s).out.results| < |s.out.results|;
      } else {
        a := Post(w);
        assert DoPost(cfg, s, w).workers[w] == Ready;
      }
  }

  lemma IndexerGoesOn(cfg: Config, s: Sys) returns (a: Action)
    requires !s.ix.done && (s.net.done || s.net.incoming != [])
    requires s.ix.gaveUp || s.cancelled || |s.ix.messages| < Capacity(cfg)
    ensures Enabled(cfg, s, a)
  {
    a := Index(true);
    if s.net.incoming != [] {
      assert |DoIndex(cfg, s, true).net.incoming| < |s.net.incoming|;
    }
  }

  /** While FETCH is still running the indexer makes room for it, or a worker makes room for the indexer. */
  lemma IncomingIsDrained(cfg: Config, s: Sys) returns (a: Action)
    requires Invariant(cfg, s) && s.net.incoming != []
    ensures Enabled(cfg, s, a)
  {
    if s.ix.gaveUp || s.cancelled || |s.ix.messages| < Capacity(cfg) {
      a := IndexerGoesOn(cfg, s);
    } else {
      assert s.workers[0] in s.workers;
      a := WorkerGoesOn(cfg, s, 0);
    }
  }

  lemma EndGoesOn(cfg: Config, s: Sys) returns (a: Action)
    requires s.verdict.None? && s.net.done && s.net.incoming == []
    ensures Enabled(cfg, s, a)
  {
    if !s.ix.done {
      a := IndexerStops(cfg, s);
    } else if w: nat :| w < |s.workers| && !s.workers[w].Exited? {
      a := WorkerGoesOn(cfg, s, w);
    } else if !s.out.closed {
      a := CloseResults;
    } else if !s.out.done {
      a := Collect;
      assert DoCollect(s).out != s.out;
    } else {
      a := Return;
    }
  }

  lemma IndexerStops(cfg: Config, s: Sys) returns (a: Action)
    requires !s.ix.done && s.net.done && s.net.incoming == []
    ensures Enabled(cfg, s, a)
  {
    a := Index(false);
    assert DoIndex(cfg, s, false).ix.done;
  }

  lemma SomeoneGoesOn(cfg: Config, s: Sys) returns (a: Action)
    requires Invariant(cfg, s) && Pending(s)
    ensures Enabled(cfg, s, a)
  {
    if s.net.incoming != [] {
      a := IncomingIsDrained(cfg, s);
    } else {
      a := EndGoesOn(cfg, s);
    }
  }

  // ---- the results ----

  /** In every reachable state in which FETCH has ended or left work, some step is possible and lowers the measure. */
  lemma NeverStuck(cfg: Config, run: seq<Action>)
    ensures var s := Exec(cfg, Init(cfg), run);
            Pending(s) ==> exists a :: Internal(a) && Measure(Next(cfg, s, a)) < Measure(s)
  {
    var s := Exec(cfg, Init(cfg), run);
    InvariantAlong(cfg, Init(cfg), run);
    if Pending(s) {
      var a := SomeoneGoesOn(cfg, s);
      StepLowers(cfg, s, a);
    }
  }

  /** The steps of a run that change something, but for a cancellation. */
  function Steps(cfg: Config, s: Sys, run: seq<Action>): nat
    decreases |run|
  {
    if run == [] then 0
    else
      var s' := Next(cfg, s, run[0]);
      (if Internal(run[0]) && s' != s then 1 else 0) + Steps(cfg, s', run[1..])
  }

  lemma EndedStays(cfg: Config, s: Sys, a: Action)
    requires s.net.done
    ensures Next(cfg, s, a).net.done
    ensures !Internal(a) ==> Measure(Next(cfg, s, a)) == Measure(s)
  {
    match a
    case Index(_) => case Take(_) => case Work(_) => case Post(_) => case _ =>
  }

  /** Once FETCH has ended, only so many steps are left in any run, so that one in which steps keep coming returns. */
  lemma {:induction false} StepsAreBounded(cfg: Config, s: Sys, more: seq<Action>)
    requires s.net.done
    ensures Steps(cfg, s, more) + Measure(Exec(cfg, s, more)) <= Measure(s)
    decreases |more|
  {
    if more != [] {
      var a := more[0];
      EndedStays(cfg, s, a);
      if Internal(a) {
        StepLowers(cfg, s, a);
      }
      StepsAreBounded(cfg, Next(cfg, s, a), more[1..]);
    }
  }

  lemma {:induction false} ReturnsFrom(cfg: Config, s: Sys) returns (more: seq<Action>)
    requires Invariant(cfg, s) && s.net.done
    ensures Exec(cfg, s, more).verdict.Some? && |more| <= Measure(s)
    ensures forall i :: 0 <= i < |more| ==> Internal(more[i])
    decreases Measure(s)
  {
    if s.verdict.Some? {
      more := [];
    } else {
      var a := SomeoneGoesOn(cfg, s);
      StepLowers(cfg, s, a);
      EndedStays(cfg, s, a);
      InvariantKept(cfg, s, a);
      var rest := ReturnsFrom(cfg, Next(cfg, s, a));
      more := [a] + rest;
      assert more[1..] == rest;
    }
  }

  /** From every reachable state in which FETCH has ended, the goroutines can bring fetch to its return. */
  lemma FetchReturns(cfg: Config, run: seq<Action>) returns (more: seq<Action>)
    requires Exec(cfg, Init(cfg), run).net.done
    ensures Exec(cfg, Init(cfg), run + more).verdict.Some?
    ensures forall i :: 0 <= i < |more| ==> Internal(more[i])
  {
    InvariantAlong(cfg, Init(cfg), run);
    more := ReturnsFrom(cfg, Exec(cfg, Init(cfg), run));
    FoldSplit((s: Sys, a: Action) => Next(cfg, s, a), Init(cfg), run, more);
  }
}
