/**
 What the errors and the phase of a remote execution say: which of the recorded updates they come from, and which step
 of the supervisor.
 */
module CommandErrors {
  import opened Prelude
  import opened CommandResult
  import opened CommandExecution

  // ---------- Who is to blame ----------

  /** The update takes the blame for the execution: it was not sent, was refused, or ended first and badly. */
  predicate Blames(log: seq<Mark>, i: nat)
    requires i < |log|
  {
    match log[i]
    case SendFailed => true
    case Refused => true
    case End(t) => t != Exit(0) && Ends(log[..i]) == []
    case _ => false
  }

  function BlameOf(m: Mark): Err {
    match m
    case SendFailed => [SendFailure]
    case Refused => [Rejection]
    case End(Exit(code)) => [ExitError(code)]
    case End(Killed(name)) => [SignalError(name)]
    case _ => []
  }

  predicate LastBlame(log: seq<Mark>, i: nat) {
    i < |log| && Blames(log, i) && forall j :: i < j < |log| ==> !Blames(log, j)
  }

  predicate Blameless(log: seq<Mark>) {
    forall i :: 0 <= i < |log| ==> !Blames(log, i)
  }

  /** The execution error is that of the last update that takes the blame, and none if there is no such update. */
  lemma {:induction false} BlameIsTheLast(log: seq<Mark>)
    requires Ordered(log)
    ensures Blameless(log) ==> Replay(log).executionErr == []
    ensures forall i: nat :: LastBlame(log, i) ==> Replay(log).executionErr == BlameOf(log[i])
  {
    if log != [] {
      var n := |log| - 1;
      var prefix := log[..n];
      OrderedPrefix(log, n);
      BlameIsTheLast(prefix);
      BlameStep(log);
      FirstEndWins(prefix);
      BlameRecorded(Replay(prefix), Ends(prefix), log[n]);
    }
  }

  lemma BlameRecorded(r: Record, ends: seq<Termination>, m: Mark)
    requires RecordsFirst(r, ends) && ValidMark(m)
    ensures Applied(r, m).executionErr ==
      if m.SendFailed? || m.Refused? || (m.End? && m.t != Exit(0) && ends == []) then BlameOf(m) else r.executionErr
  {
  }

  lemma BlameStep(log: seq<Mark>)
    requires log != []
    ensures var n := |log| - 1;
      && (Blameless(log) <==> Blameless(log[..n]) && !Blames(log, n))
      && (Blames(log, n) ==> forall i: nat :: LastBlame(log, i) ==> i == n)
      && (!Blames(log, n) ==> forall i: nat :: LastBlame(log, i) ==> LastBlame(log[..n], i) && log[..n][i] == log[i])
  {
    var n := |log| - 1;
    forall i | 0 <= i < n ensures log[..n][i] == log[i] && (Blames(log[..n], i) <==> Blames(log, i)) {
      assert log[..n][..i] == log[..i];
    }
  }

  // ---------- What went wrong around it ----------

  /** A failure that is only kept if nothing went wrong before. */
  predicate Minor(log: seq<Mark>, i: nat)
    requires i < |log|
  {
    log[i] == Trouble(ProtocolFailure) || (log[i].End? && Ends(log[..i]) != [])
  }

  predicate Wrong(log: seq<Mark>, i: nat)
    requires i < |log|
  {
    log[i].Trouble? || Minor(log, i)
  }

  predicate FirstWrong(log: seq<Mark>, i: nat) {
    i < |log| && Wrong(log, i) && forall j :: 0 <= j < i ==> !Wrong(log, j)
  }

  /** What input and output failed with, in order. */
  function Transfers(log: seq<Mark>): Err {
    if log == [] then []
    else
      var m := log[|log| - 1];
      Transfers(log[..|log| - 1]) + TransferOf(m)
  }

  function TransferOf(m: Mark): Err {
    if m.Trouble? && m.cause != ProtocolFailure then [m.cause] else []
  }

  function MinorCause(m: Mark): Err {
    if m.End? then [Duplicate] else [ProtocolFailure]
  }

  /** What the first thing that went wrong leaves at the head of the list. */
  function Head(log: seq<Mark>, first: Option<nat>): Err {
    if first.Some? && first.value < |log| && Minor(log, first.value) then MinorCause(log[first.value]) else []
  }

  predicate FirstOf(log: seq<Mark>, first: Option<nat>) {
    match first
    case Some(i) => FirstWrong(log, i)
    case None => forall i :: 0 <= i < |log| ==> !Wrong(log, i)
  }

  /** Every failure to transfer is kept in order; a minor failure only if it was the first that went wrong. */
  lemma {:induction false} TroublesAreKept(log: seq<Mark>) returns (first: Option<nat>)
    requires Ordered(log)
    ensures FirstOf(log, first) && Replay(log).ioErr == Head(log, first) + Transfers(log)
    ensures first.Some? <==> Replay(log).ioErr != []
  {
    first := None;
    if log != [] {
      var n := |log| - 1;
      OrderedPrefix(log, n);
      first := TroublesAreKept(log[..n]);
      FirstEndWins(log[..n]);
      TroubleRecorded(Replay(log[..n]), Ends(log[..n]), log[n]);
      if first.Some? { LaterTrouble(log, first.value); } else { first := NewTrouble(log); }
    }
  }

  lemma LaterTrouble(log: seq<Mark>, first: nat)
    requires log != []
    requires var n := |log| - 1; var io := Replay(log[..n]).ioErr;
      && FirstWrong(log[..n], first) && io == Head(log[..n], Some(first)) + Transfers(log[..n]) && io != []
      && Replay(log).ioErr == if Minor(log, n) then io else io + TransferOf(log[n])
    ensures FirstWrong(log, first) && Replay(log).ioErr == Head(log, Some(first)) + Transfers(log)
  {
    var n := |log| - 1;
    WrongStep(log);
    Assoc(Head(log, Some(first)), Transfers(log[..n]), TransferOf(log[n]));
  }

  lemma NewTrouble(log: seq<Mark>) returns (first: Option<nat>)
    requires log != []
    requires var n := |log| - 1;
      && FirstOf(log[..n], None) && Transfers(log[..n]) == []
      && Replay(log).ioErr == if Minor(log, n) then MinorCause(log[n]) else TransferOf(log[n])
    ensures FirstOf(log, first) && Replay(log).ioErr == Head(log, first) + Transfers(log)
    ensures first.Some? <==> Replay(log).ioErr != []
  {
    var n := |log| - 1;
    WrongStep(log);
    first := if Wrong(log, n) then Some(n) else None;
    assert Transfers(log) == TransferOf(log[n]);
  }

  lemma TroubleRecorded(r: Record, ends: seq<Termination>, m: Mark)
    requires RecordsFirst(r, ends) && ValidMark(m)
    ensures Applied(r, m).ioErr ==
      if m == Trouble(ProtocolFailure) || (m.End? && ends != []) then (if r.ioErr == [] then MinorCause(m) else r.ioErr)
      else r.ioErr + TransferOf(m)
  {
  }

  lemma WrongStep(log: seq<Mark>)
    requires log != []
    ensures var n := |log| - 1; var prefix := log[..n];
      forall i :: 0 <= i < n ==>
        prefix[i] == log[i] && (Wrong(prefix, i) <==> Wrong(log, i)) && (Minor(prefix, i) <==> Minor(log, i))
  {
    var n := |log| - 1;
    forall i | 0 <= i < n
      ensures log[..n][i] == log[i]
      ensures (Wrong(log[..n], i) <==> Wrong(log, i)) && (Minor(log[..n], i) <==> Minor(log, i))
    {
      assert log[..n][..i] == log[..i];
    }
  }

  // ---------- The phase ----------

  predicate Moves(m: Mark) {
    m.Sent? || m.Refused? || m.Confirmed?
  }

  predicate LastMove(log: seq<Mark>, i: nat) {
    i < |log| && Moves(log[i]) && forall j :: i < j < |log| ==> !Moves(log[j])
  }

  /** Finished is the phase of completed executions; of others it is given by the last step of the sender. */
  lemma {:induction false} PhaseTells(log: seq<Mark>)
    requires Ordered(log)
    ensures Replay(log).phase == Finished <==> Replay(log).outcome == Completed
    ensures Replay(log).outcome != Completed ==>
      && ((forall i :: 0 <= i < |log| ==> !Moves(log[i])) ==> Replay(log).phase == Opening)
      && forall i: nat :: LastMove(log, i) ==> Replay(log).phase == if log[i].Confirmed? then Running else Requesting
  {
    if log != [] {
      var n := |log| - 1;
      var prefix := log[..n];
      OrderedPrefix(log, n);
      PhaseTells(prefix);
      FirstEndWins(prefix);
      FirstEndStep(Replay(prefix), Ends(prefix), log[n]);
      MoveStep(log);
    }
  }

  lemma MoveStep(log: seq<Mark>)
    requires log != []
    ensures var n := |log| - 1; var prefix := log[..n];
      && (forall i :: 0 <= i < n ==> prefix[i] == log[i])
      && (Moves(log[n]) ==> forall i: nat :: LastMove(log, i) ==> i == n)
      && (!Moves(log[n]) ==> forall i: nat :: LastMove(log, i) ==> LastMove(prefix, i) && prefix[i] == log[i])
  {
  }

  // ---------- The supervisor ----------

  /** The step with which the supervisor stops waiting. */
  predicate Decides(s: Sys, a: Act) {
    || a.Refute? || a.StartTimeout? || a.JoinWorkers? || a.StopWaiting?
    || (a.TakeStart? && s.start.Some? && s.start.value != Started(true))
  }

  /** Why it stopped: the start failed or was given up, the context expired while it waited, or there is no reason. */
  function Reason(s: Sys, a: Act): Err {
    match a
    case Refute(cause) => [cause]
    case StartTimeout => [Interrupted]
    case StopWaiting => [Interrupted]
    case TakeStart => if s.start.Some? && s.start.value.StartFailed? then [s.start.value.cause] else []
    case _ => []
  }

  predicate Stopped(s: Sys, reason: Err) {
    match s.sup
    case Closing(waitErr) => waitErr == reason
    case Returned(_, waitErr, _) => waitErr == reason
    case _ => false
  }

  predicate HasStopped(s: Sys) {
    s.sup.Closing? || s.sup.Returned?
  }

  lemma DecisionStops(s: Sys, a: Act)
    requires Enabled(s, a) && Decides(s, a)
    ensures !HasStopped(s) && Stopped(After(s, a), Reason(s, a))
  {
  }

  lemma StoppedStays(s: Sys, a: Act, reason: Err)
    requires Enabled(s, a) && Stopped(s, reason)
    ensures !Decides(s, a) && Stopped(After(s, a), reason)
  {
  }

  lemma OnlyDecisionsStop(s: Sys, a: Act)
    requires Enabled(s, a) && !Decides(s, a) && HasStopped(After(s, a))
    ensures HasStopped(s)
  {
  }

  /** The supervisor stops waiting once, and what is reported of the waiting is the reason it had then. */
  lemma {:induction false} WaitErrorIsTheReason(states: seq<Sys>, acts: seq<Act>, i: nat, j: nat)
    requires Run(states, acts) && i < j < |states| && Decides(states[i], acts[i])
    ensures Stopped(states[j], Reason(states[i], acts[i]))
    ensures j < |acts| ==> !Decides(states[j], acts[j])
    decreases j
  {
    if j == i + 1 {
      DecisionStops(states[i], acts[i]);
    } else {
      WaitErrorIsTheReason(states, acts, i, j - 1);
      StoppedStays(states[j - 1], acts[j - 1], Reason(states[i], acts[i]));
    }
    if j < |acts| { StoppedStays(states[j], acts[j], Reason(states[i], acts[i])); }
  }

  /** It never stops without such a step. */
  lemma {:induction false} SomethingDecided(states: seq<Sys>, acts: seq<Act>, n: nat) returns (i: nat)
    requires Run(states, acts) && n < |states| && HasStopped(states[n])
    ensures i < n && Decides(states[i], acts[i])
  {
    i := n - 1;
    if !Decides(states[i], acts[i]) {
      OnlyDecisionsStop(states[i], acts[i]);
      i := SomethingDecided(states, acts, i);
    }
  }

  predicate StartTells(s: Sys) {
    match s.start
    case None => true
    case Some(StartFailed(cause)) =>
      (cause == Interrupted && s.replies == []) || (cause == SendFailure && s.replies == [Lost])
    case Some(Started(accepted)) => s.replies == [if accepted then Accept else Refuse]
  }

  lemma StartStep(s: Sys, a: Act)
    requires Enabled(s, a) && Inv(s) && StartTells(s)
    ensures StartTells(After(s, a))
  {
  }

  /** A start fails because the context was done before anything was sent, or because sending failed. */
  lemma {:induction false} StartTellsWhy(states: seq<Sys>, acts: seq<Act>, n: nat)
    requires Run(states, acts) && n < |states|
    ensures StartTells(states[n])
  {
    if n > 0 {
      StartTellsWhy(states, acts, n - 1);
      InvAt(states, acts, n - 1);
      StartStep(states[n - 1], acts[n - 1]);
    }
  }

  /**
   The errors returned: the blame and the troubles as recorded, why the supervisor stopped waiting, and how cleaning up
   ended; an execution whose end is not known and of which nothing else is said is said to lack its exit.
   */
  lemma ReturnedErrors(states: seq<Sys>, acts: seq<Act>, n: nat)
    requires Run(states, acts) && n < |acts| && acts[n].Return?
    ensures states[n].sup.Closing? && states[n + 1].sup.Returned?
    ensures var s := states[n + 1]; var r, blame := s.sup.result, Replay(s.log).executionErr;
      && r.ioErr == Replay(s.log).ioErr && r.cleanupErr == acts[n].cleanupErr
      && s.sup.waitErr == states[n].sup.waitErr
      && r.executionErr ==
         if SentLast(s.log) && blame == [] && s.sup.waitErr == [] then [ExitMissing] else blame + s.sup.waitErr
  {
    InvAt(states, acts, n);
    UnknownExactly(states[n].log);
  }
}
