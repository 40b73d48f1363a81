/** The failover sender of compose.go, and how the error it returns is classified. */
module Failover {
  import opened Prelude
  import opened Errors

  /** What one configured sender comes to: there is none, it sends, or it fails, perhaps with a done context. */
  datatype Try = Absent | Sent | Failed(error: Error, doneAfter: bool)

  datatype Ending = Delivered | Rejected | ContextEnded | Exhausted

  /** The failures of the senders the walk reaches, and how it ends. */
  function Walk(tries: seq<Try>): (seq<Error>, Ending) {
    if tries == [] then ([], Exhausted)
    else
      match tries[0]
      case Absent => Walk(tries[1..])
      case Sent => ([], Delivered)
      case Failed(e, done) =>
        if !IsRetryable(e) then ([e], Rejected)
        else if done then ([e], ContextEnded)
        else
          var (more, end) := Walk(tries[1..]);
          ([e] + more, end)
  }

  /** Each failure gets a message that names its sender. */
  function Named(es: seq<Error>): (ns: seq<Error>)
    ensures |ns| == |es|
    ensures forall i :: 0 <= i < |es| ==> ns[i] == Wrapped(es[i])
  {
    if es == [] then [] else [Wrapped(es[0])] + Named(es[1..])
  }

  function Result(tries: seq<Try>): Option<Error> {
    var (es, end) := Walk(tries);
    if end.Delivered? then None
    else if es == [] then Some(Permanent(Leaf))
    else if end.ContextEnded? then Some(Joined(Named(es) + [ContextDone]))
    else Some(Joined(Named(es)))
  }

  lemma NamedOneMore(es: seq<Error>, e: Error)
    ensures Named(es + [e]) == Named(es) + [Wrapped(e)]
  {
  }

  /** What was met so far and what is still to come make up the whole walk. */
  ghost predicate Ahead(whole: (seq<Error>, Ending), met: seq<Error>, rest: (seq<Error>, Ending)) {
    whole == (met + rest.0, rest.1)
  }

  lemma OneMore(whole: (seq<Error>, Ending), met: seq<Error>, e: Error, rest: (seq<Error>, Ending))
    requires Ahead(whole, met, ([e] + rest.0, rest.1))
    ensures Ahead(whole, met + [e], rest)
    ensures Named(met + [e]) == Named(met) + [Wrapped(e)]
  {
    assert met + ([e] + rest.0) == (met + [e]) + rest.0;
    NamedOneMore(met, e);
  }

  method Send(tries: seq<Try>) returns (error: Option<Error>)
    ensures error == Result(tries)
  {
    var errs: seq<Error> := [];
    ghost var met: seq<Error> := [];
    assert tries[0..] == tries;
    assert [] + Walk(tries).0 == Walk(tries).0;
    for i := 0 to |tries|
      invariant errs == Named(met)
      invariant Ahead(Walk(tries), met, Walk(tries[i..]))
    {
      var one := tries[i];
      ghost var rest := Walk(tries[i + 1..]);
      assert tries[i..][0] == one && tries[i..][1..] == tries[i + 1..];
      if one.Absent? {
        continue;
      }
      if one.Sent? {
        return None;
      }
      if !IsRetryable(one.error) || one.doneAfter {
        rest := ([], Walk(tries[i..]).1);
        assert [one.error] + [] == [one.error];
      }
      OneMore(Walk(tries), met, one.error, rest);
      errs := errs + [Wrapped(one.error)];
      met := met + [one.error];
      assert met + [] == met;
      if !IsRetryable(one.error) {
        return Some(Joined(errs));
      }
      if one.doneAfter {
        return Some(Joined(errs + [ContextDone]));
      }
    }
    assert met + [] == met;
    if |errs| == 0 {
      return Some(Permanent(Leaf));
    }
    return Some(Joined(errs));
  }

  // ---- how far the walk goes ----

  /** The failures among the senders, in order. */
  function FailuresAmong(tries: seq<Try>): seq<Error> {
    if tries == [] then []
    else (if tries[0].Failed? then [tries[0].error] else []) + FailuresAmong(tries[1..])
  }

  /** The walk goes on past a sender that is not there, and past a failure worth trying elsewhere. */
  predicate PassedOver(t: Try) {
    t.Absent? || (t.Failed? && IsRetryable(t.error) && !t.doneAfter)
  }

  /** What comes of the walk when `t` is the first sender it does not pass over. */
  predicate EndsThere(t: Try, end: Ending) {
    match t
    case Absent => false
    case Sent => end == Delivered
    case Failed(e, done) => end == if IsRetryable(e) then ContextEnded else Rejected
  }

  /** The walk reaches the first sender it does not pass over, and collects the failures up to and with that one. */
  lemma {:induction false} WalkReaches(tries: seq<Try>) returns (n: nat)
    ensures n <= |tries| && forall i :: 0 <= i < n ==> PassedOver(tries[i])
    ensures
      var (es, end) := Walk(tries);
      if n == |tries| then end == Exhausted && es == FailuresAmong(tries)
      else !PassedOver(tries[n]) && EndsThere(tries[n], end) && es == FailuresAmong(tries[..n + 1])
    decreases |tries|
  {
    if tries == [] {
      n := 0;
    } else if !PassedOver(tries[0]) {
      n := 0;
      assert tries[..1][0] == tries[0] && tries[..1][1..] == [];
    } else {
      n := WalkReaches(tries[1..]);
      if n < |tries| - 1 {
        assert tries[..n + 2][0] == tries[0] && tries[..n + 2][1..] == tries[1..][..n + 1];
      }
      n := n + 1;
    }
  }

  /**
   * What Send returns: nothing, once a sender has sent and all before it were
   * passed over; else every failure met, in order, and the context's error if
   * that ended the walk; and a permanent error when there was nobody to try.
   */
  lemma SendReturns(tries: seq<Try>) returns (n: nat)
    ensures n <= |tries| && forall i :: 0 <= i < n ==> PassedOver(tries[i])
    ensures n < |tries| ==> !PassedOver(tries[n])
    ensures
      var met := FailuresAmong(if n == |tries| then tries else tries[..n + 1]);
      && (Result(tries) == None <==> n < |tries| && tries[n].Sent?)
      && (n == |tries| && met == [] ==> !IsRetryable(Result(tries).value))
      && (n == |tries| && met != [] ==> Result(tries) == Some(Joined(Named(met))))
      && (n < |tries| && tries[n].Failed? ==>
            Result(tries) == Some(Joined(Named(met) + if IsRetryable(tries[n].error) then [ContextDone] else [])))
  {
    n := WalkReaches(tries);
    if n < |tries| && tries[n].Failed? {
      LastIsAmong(tries[..n + 1], n);
      var met := FailuresAmong(tries[..n + 1]);
      assert Named(met) + [] == Named(met);
    }
  }

  lemma {:induction false} LastIsAmong(tries: seq<Try>, i: nat)
    requires i < |tries| && tries[i].Failed?
    ensures FailuresAmong(tries) != []
    decreases i
  {
    if i > 0 {
      LastIsAmong(tries[1..], i - 1);
    }
  }

  // ---- classification ----

  /** The walk goes on only past failures worth trying elsewhere. */
  lemma {:induction false} OnlyTheLastIsFinal(tries: seq<Try>)
    ensures
      var (es, end) := Walk(tries);
      && (forall i :: 0 <= i < |es| - 1 ==> IsRetryable(es[i]))
      && (end.Rejected? ==> es != [] && !IsRetryable(es[|es| - 1]))
      && (end.Exhausted? && es != [] ==> IsRetryable(es[|es| - 1]))
    decreases |tries|
  {
    if tries != [] {
      OnlyTheLastIsFinal(tries[1..]);
    }
  }

  /** The first opinion in a join is that of the first failure that has one. */
  lemma {:induction false} JoinedOpinion(es: seq<Error>, i: nat)
    requires i < |es| && forall j :: 0 <= j < i ==> Opinion(es[j]).None?
    requires i == |es| - 1 || Opinion(es[i]).Some?
    ensures FirstOpinion(Named(es)) == Opinion(es[i])
    decreases |es|
  {
    var rest := es[1..];
    assert Named(es)[0] == Wrapped(es[0]) && Named(es)[1..] == Named(rest);
    if i == 0 {
      assert i == |es| - 1 ==> rest == [];
    } else {
      assert forall j :: 0 <= j < |rest| ==> rest[j] == es[j + 1];
      JoinedOpinion(rest, i - 1);
    }
  }

  lemma {:induction false} FirstWithOpinion(es: seq<Error>) returns (i: nat)
    requires es != []
    ensures i < |es| && forall j :: 0 <= j < i ==> Opinion(es[j]).None?
    ensures i == |es| - 1 || Opinion(es[i]).Some?
    decreases |es|
  {
    if |es| == 1 || Opinion(es[0]).Some? {
      i := 0;
    } else {
      i := FirstWithOpinion(es[1..]);
      assert forall j :: 0 < j < |es| ==> es[j] == es[1..][j - 1];
      i := i + 1;
    }
  }

  ghost predicate AnyDone(es: seq<Error>) {
    exists i :: 0 <= i < |es| && IsContextDone(es[i])
  }

  ghost predicate AnyMarked(es: seq<Error>) {
    exists i :: 0 <= i < |es| && IsMarked(es[i])
  }

  lemma JoinedMembers(es: seq<Error>)
    ensures IsContextDone(Joined(Named(es))) <==> AnyDone(es)
    ensures IsMarked(Joined(Named(es))) <==> AnyMarked(es)
  {
    forall i | 0 <= i < |es|
      ensures IsContextDone(Named(es)[i]) == IsContextDone(es[i]) && IsMarked(Named(es)[i]) == IsMarked(es[i])
    {
    }
  }

  /** The first opinion decides, and without one any sentinel does. */
  lemma JoinedVerdict(es: seq<Error>) returns (i: nat)
    requires es != []
    ensures i < |es| && forall j :: 0 <= j < i ==> Opinion(es[j]).None?
    ensures i == |es| - 1 || Opinion(es[i]).Some?
    ensures IsRetryable(Joined(Named(es))) <==>
      !AnyDone(es) && (if Opinion(es[i]).Some? then Opinion(es[i]).value else !AnyMarked(es))
  {
    JoinedMembers(es);
    i := FirstWithOpinion(es);
    JoinedOpinion(es, i);
    assert Opinion(Joined(Named(es))) == FirstOpinion(Named(es));
  }

  lemma EarlierAreClean(es: seq<Error>)
    requires es != [] && forall i :: 0 <= i < |es| - 1 ==> IsRetryable(es[i])
    ensures AnyDone(es) <==> IsContextDone(es[|es| - 1])
    ensures EarlierSilent(es) ==> (AnyMarked(es) <==> IsMarked(es[|es| - 1]))
  {
  }

  /** No earlier failure says anything about retrying. */
  ghost predicate EarlierSilent(es: seq<Error>) {
    forall i :: 0 <= i < |es| - 1 ==> Opinion(es[i]).None?
  }

  /**
   * Failures joined by a walk are classified like the last of them exactly when
   * that one is worth retrying or the context's, or no earlier one has an
   * opinion: otherwise an earlier yes hides a final no.
   */
  lemma JoinedLikeLast(es: seq<Error>)
    requires es != [] && forall i :: 0 <= i < |es| - 1 ==> IsRetryable(es[i])
    ensures
      var last := es[|es| - 1];
      IsRetryable(Joined(Named(es))) == IsRetryable(last) <==>
        IsRetryable(last) || IsContextDone(last) || EarlierSilent(es)
  {
    EarlierAreClean(es);
    var i := JoinedVerdict(es);
    if i < |es| - 1 {
      assert IsRetryable(es[i]);
      assert !EarlierSilent(es);
    } else {
      assert EarlierSilent(es);
    }
  }

  /** So for the error the failover sender returns; a walk the context ended is never retried. */
  lemma FailoverClassification(tries: seq<Try>)
    ensures
      var (es, end) := Walk(tries);
      && (end.ContextEnded? ==> !IsRetryable(Result(tries).value))
      && ((end.Rejected? || end.Exhausted?) && es != [] ==>
            (IsRetryable(Result(tries).value) == IsRetryable(es[|es| - 1]) <==>
              end.Exhausted? || IsContextDone(es[|es| - 1]) || EarlierSilent(es)))
  {
    var (es, end) := Walk(tries);
    OnlyTheLastIsFinal(tries);
    if end.ContextEnded? && es != [] {
      var causes := Named(es) + [ContextDone];
      assert causes[|causes| - 1] == ContextDone;
      assert IsContextDone(causes[|causes| - 1]);
    } else if es != [] {
      JoinedLikeLast(es);
    }
  }

  /** A busy provider before the one that rejects the message for good: the rejection is retried. */
  lemma RejectionIsHidden()
    ensures
      var tries := [Failed(Judged(true, Leaf), false), Failed(Permanent(Leaf), false)];
      && Walk(tries) == ([Judged(true, Leaf), Permanent(Leaf)], Rejected)
      && !IsRetryable(Permanent(Leaf))
      && IsRetryable(Result(tries).value)
  {
    var tries := [Failed(Judged(true, Leaf), false), Failed(Permanent(Leaf), false)];
    assert tries[1..] == [tries[1]] && tries[1..][1..] == [];
    assert Walk(tries[1..]) == ([Permanent(Leaf)], Rejected);
    assert [Judged(true, Leaf)] + [Permanent(Leaf)] == [Judged(true, Leaf), Permanent(Leaf)];
    FailoverClassification(tries);
  }
}
