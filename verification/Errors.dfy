/** Errors as trees, and how provider.go reads them: what is worth another try, and after how long. */
module Errors {
  import opened Prelude

  /** An error and what it wraps. A join wraps several errors, in order. */
  datatype Error =
    | Leaf
    | Sentinel                                // the bare mark for permanent failures
    | ContextDone                             // cancelled, or past its deadline
    | Wrapped(cause: Error)                   // adds only a message
    | Judged(retryable: bool, cause: Error)   // says itself whether to retry
    | Permanent(cause: Error)                 // what NonRetryable makes
    | After(delay: real, cause: Error)        // carries a server's Retry-After
    | Joined(causes: seq<Error>)

  // ---- the searches, depth first ----

  predicate IsContextDone(e: Error) {
    match e
    case Leaf => false
    case Sentinel => false
    case ContextDone => true
    case Joined(causes) => exists i :: 0 <= i < |causes| && IsContextDone(causes[i])
    case _ => IsContextDone(e.cause)
  }

  predicate IsMarked(e: Error) {
    match e
    case Leaf => false
    case Sentinel => true
    case ContextDone => false
    case Permanent(_) => true
    case Joined(causes) => exists i :: 0 <= i < |causes| && IsMarked(causes[i])
    case _ => IsMarked(e.cause)
  }

  /** The first error met that says whether to retry, and what it says. */
  function Opinion(e: Error): Option<bool> {
    match e
    case Leaf => None
    case Sentinel => None
    case ContextDone => None
    case Judged(retryable, _) => Some(retryable)
    case Permanent(_) => Some(false)
    case Joined(causes) => FirstOpinion(causes)
    case _ => Opinion(e.cause)
  }

  function FirstOpinion(causes: seq<Error>): Option<bool> {
    if causes == [] then None
    else if Opinion(causes[0]).Some? then Opinion(causes[0])
    else FirstOpinion(causes[1..])
  }

  /** The first error met that carries a delay, useful or not. */
  function Delay(e: Error): Option<real> {
    match e
    case Leaf => None
    case Sentinel => None
    case ContextDone => None
    case After(delay, _) => Some(delay)
    case Joined(causes) => FirstDelay(causes)
    case _ => Delay(e.cause)
  }

  function FirstDelay(causes: seq<Error>): Option<real> {
    if causes == [] then None
    else if Delay(causes[0]).Some? then Delay(causes[0])
    else FirstDelay(causes[1..])
  }

  predicate IsRetryable(e: Error) {
    if IsContextDone(e) then false
    else
      match Opinion(e)
      case Some(says) => says
      case None => !IsMarked(e)
  }

  /** Only the first delay met counts, and only if it is positive. */
  function Hint(e: Error): Option<real> {
    match Delay(e)
    case Some(d) => if d > 0.0 then Some(d) else None
    case None => None
  }

  // ---- the same, over a tree read off as a list ----

  datatype Note = Done | Bare | Says(retryable: bool) | Asks(delay: real)

  /** All a tree holds, a node before what it wraps and earlier causes before later ones. */
  function Notes(e: Error): seq<Note> {
    match e
    case Leaf => []
    case Sentinel => [Bare]
    case ContextDone => [Done]
    case Wrapped(cause) => Notes(cause)
    case Judged(retryable, cause) => [Says(retryable)] + Notes(cause)
    case Permanent(cause) => [Says(false), Bare] + Notes(cause)
    case After(delay, cause) => [Asks(delay)] + Notes(cause)
    case Joined(causes) => AllNotes(causes)
  }

  function AllNotes(causes: seq<Error>): seq<Note> {
    if causes == [] then [] else Notes(causes[0]) + AllNotes(causes[1..])
  }

  function FirstSays(ns: seq<Note>): Option<bool> {
    if ns == [] then None else if ns[0].Says? then Some(ns[0].retryable) else FirstSays(ns[1..])
  }

  function FirstAsks(ns: seq<Note>): Option<real> {
    if ns == [] then None else if ns[0].Asks? then Some(ns[0].delay) else FirstAsks(ns[1..])
  }

  lemma {:induction false} FirstInConcat(a: seq<Note>, b: seq<Note>)
    ensures FirstSays(a + b) == if FirstSays(a).Some? then FirstSays(a) else FirstSays(b)
    ensures FirstAsks(a + b) == if FirstAsks(a).Some? then FirstAsks(a) else FirstAsks(b)
    decreases |a|
  {
    if a == [] {
      assert a + b == b;
    } else {
      assert (a + b)[1..] == a[1..] + b;
      FirstInConcat(a[1..], b);
    }
  }

  lemma {:induction false} SearchesRead(e: Error)
    ensures IsContextDone(e) <==> Done in Notes(e)
    ensures IsMarked(e) <==> Bare in Notes(e)
    ensures Opinion(e) == FirstSays(Notes(e)) && Delay(e) == FirstAsks(Notes(e))
    decreases e
  {
    match e
    case Leaf =>
    case Sentinel =>
    case ContextDone =>
    case Wrapped(cause) => SearchesRead(cause);
    case Judged(retryable, cause) =>
      SearchesRead(cause);
      FirstInConcat([Says(retryable)], Notes(cause));
    case Permanent(cause) =>
      SearchesRead(cause);
      FirstInConcat([Says(false), Bare], Notes(cause));
    case After(delay, cause) =>
      SearchesRead(cause);
      FirstInConcat([Asks(delay)], Notes(cause));
    case Joined(causes) => JoinRead(causes);
  }

  lemma {:induction false} JoinRead(causes: seq<Error>)
    ensures (exists i :: 0 <= i < |causes| && IsContextDone(causes[i])) <==> Done in AllNotes(causes)
    ensures (exists i :: 0 <= i < |causes| && IsMarked(causes[i])) <==> Bare in AllNotes(causes)
    ensures FirstOpinion(causes) == FirstSays(AllNotes(causes))
    ensures FirstDelay(causes) == FirstAsks(AllNotes(causes))
    decreases causes
  {
    if causes != [] {
      var first, rest := causes[0], causes[1..];
      SearchesRead(first);
      JoinRead(rest);
      FirstInConcat(Notes(first), AllNotes(rest));
      assert forall i :: 0 <= i < |rest| ==> rest[i] == causes[i + 1];
      assert forall i :: 0 < i < |causes| ==> causes[i] == rest[i - 1];
    }
  }

  /** The list says yes before it ever says no. */
  ghost predicate YesFirst(ns: seq<Note>) {
    exists i :: 0 <= i < |ns| && ns[i] == Says(true) && forall j :: 0 <= j < i ==> ns[j] != Says(false)
  }

  lemma {:induction false} FirstSaysIs(ns: seq<Note>)
    ensures FirstSays(ns) == Some(true) <==> YesFirst(ns)
    ensures FirstSays(ns) == None <==> Says(true) !in ns && Says(false) !in ns
    decreases |ns|
  {
    if ns != [] {
      var rest := ns[1..];
      FirstSaysIs(rest);
      assert forall j :: 0 < j < |ns| ==> ns[j] == rest[j - 1];
      if ns[0].Says? {
        assert ns[0] == Says(true) || ns[0] == Says(false);
      } else {
        if YesFirst(rest) {
          var i :| 0 <= i < |rest| && rest[i] == Says(true) && forall j :: 0 <= j < i ==> rest[j] != Says(false);
          assert ns[i + 1] == Says(true);
        }
        if YesFirst(ns) {
          var i :| 0 <= i < |ns| && ns[i] == Says(true) && forall j :: 0 <= j < i ==> ns[j] != Says(false);
          assert rest[i - 1] == Says(true);
          assert forall j :: 0 <= j < i - 1 ==> rest[j] == ns[j + 1];
        }
      }
    }
  }

  /**
   * An error is retried exactly when the context is nowhere in its tree, and
   * either something says yes before anything says no, or nothing says
   * anything and the sentinel is nowhere in it either.
   */
  lemma RetryableIff(e: Error)
    ensures IsRetryable(e) <==>
      var ns := Notes(e);
      && Done !in ns
      && (YesFirst(ns) || (Says(true) !in ns && Says(false) !in ns && Bare !in ns))
  {
    SearchesRead(e);
    FirstSaysIs(Notes(e));
  }

  /** What NonRetryable marks is never retried, whatever messages are put around it. */
  lemma {:induction false} MarkedIsFinal(e: Error, messages: nat)
    ensures !IsRetryable(Around(Permanent(e), messages))
    decreases messages
  {
    AroundSays(Permanent(e), messages);
  }

  function Around(e: Error, messages: nat): Error {
    if messages == 0 then e else Wrapped(Around(e, messages - 1))
  }

  lemma {:induction false} AroundSays(e: Error, messages: nat)
    ensures Opinion(Around(e, messages)) == Opinion(e)
  {
    if messages > 0 {
      AroundSays(e, messages - 1);
    }
  }
}
