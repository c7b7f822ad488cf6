/**
 The record of a remote execution that sender, observer and output readers update under one lock, and what its
 fields say about the order in which the updates happened.
 */
module CommandResult {
  import opened Prelude

  type Status = n: nat | n < 0x1_0000_0000

  datatype Outcome = NotStarted | Completed | Unknown

  datatype Phase = Opening | Requesting | Running | Finished

  datatype Cause =
    | Interrupted | SendFailure | Rejection | ExitError(code: Status) | SignalError(name: string)
    | ExitMissing | InputFailure | OutputFailure | ProtocolFailure | Duplicate

  /** An error is the list of its causes; joining errors appends them, and no cause is no error. */
  type Err = seq<Cause>

  datatype Record = Record(
    phase: Phase, outcome: Outcome, exitCode: Option<Status>, signal: string,
    executionErr: Err, ioErr: Err, cleanupErr: Err)

  function ErrOf(r: Record): Err {
    r.executionErr + r.ioErr + r.cleanupErr
  }

  datatype Termination = Exit(code: Status) | Killed(name: string)

  /** A request of the peer on the channel; None is a payload that does not parse. */
  datatype Message = ExitStatus(status: Option<Status>) | ExitSignal(name: Option<string>) | OtherMessage

  // ---------- The updates ----------

  const NEW := Record(Opening, NotStarted, None, "", [], [], [])

  function Sending(r: Record): Record {
    r.(phase := Requesting, outcome := Unknown)
  }

  function Failing(r: Record): Record {
    r.(executionErr := [SendFailure])
  }

  function Refusing(r: Record): Record {
    r.(phase := Requesting, outcome := NotStarted, executionErr := [Rejection])
  }

  function Confirming(r: Record): Record {
    if r.outcome == Completed then r else r.(phase := Running)
  }

  predicate Ended(r: Record) {
    r.exitCode.Some? || r.signal != ""
  }

  function Ending(r: Record, t: Termination): Record {
    if Ended(r) then
      if r.ioErr == [] then r.(ioErr := [Duplicate]) else r
    else
      match t
      case Exit(code) =>
        var r' := r.(phase := Finished, outcome := Completed, exitCode := Some(code));
        if code == 0 then r' else r'.(executionErr := [ExitError(code)])
      case Killed(name) =>
        r.(phase := Finished, outcome := Completed, signal := name, executionErr := [SignalError(name)])
  }

  function Troubling(r: Record, cause: Cause): Record {
    if cause == ProtocolFailure then
      if r.ioErr == [] then r.(ioErr := [cause]) else r
    else r.(ioErr := r.ioErr + [cause])
  }

  /** What the supervisor makes of the record when every worker has returned. */
  function Concluding(r: Record, waitErr: Err, cleanupErr: Err): Record {
    var r' := r.(cleanupErr := cleanupErr, executionErr := r.executionErr + waitErr);
    if r'.outcome == Unknown && r'.executionErr == [] then r'.(executionErr := [ExitMissing]) else r'
  }

  /** The termination a request reports, if it reports one. */
  function Reported(m: Message): Option<Termination> {
    match m
    case ExitStatus(Some(code)) => Some(Exit(code))
    case ExitSignal(Some(name)) => if name == "" then None else Some(Killed(name))
    case _ => None
  }

  /** Handling the request fails by itself, whether or not a reply is wanted. */
  predicate Malformed(m: Message) {
    !m.OtherMessage? && Reported(m).None?
  }

  // ---------- The log of updates ----------

  datatype Mark = Sent | SendFailed | Refused | Confirmed | End(t: Termination) | Trouble(cause: Cause)

  predicate ValidMark(m: Mark) {
    m.End? && m.t.Killed? ==> m.t.name != ""
  }

  function Applied(r: Record, m: Mark): Record {
    match m
    case Sent => Sending(r)
    case SendFailed => Failing(r)
    case Refused => Refusing(r)
    case Confirmed => Confirming(r)
    case End(t) => Ending(r, t)
    case Trouble(cause) => Troubling(r, cause)
  }

  function Replay(log: seq<Mark>): Record {
    if log == [] then NEW else Applied(Replay(log[..|log| - 1]), log[|log| - 1])
  }

  /** The terminations the peer reported, in order. */
  function Ends(log: seq<Mark>): seq<Termination> {
    if log == [] then []
    else Ends(log[..|log| - 1]) + if log[|log| - 1].End? then [log[|log| - 1].t] else []
  }

  /** The exec request is announced before anything is known about it, and at most once. */
  predicate Ordered(log: seq<Mark>) {
    && (forall i :: 0 <= i < |log| ==> ValidMark(log[i]))
    && (forall i, j :: 0 <= i < j < |log| && log[j].Sent? ==> !Answer(log[i]) && !log[i].Sent?)
  }

  predicate Answer(m: Mark) {
    m.SendFailed? || m.Refused? || m.Confirmed?
  }

  lemma OrderedPrefix(log: seq<Mark>, n: nat)
    requires Ordered(log) && n <= |log|
    ensures Ordered(log[..n])
  {
  }

  lemma {:induction false} EndsGrow(log: seq<Mark>, n: nat)
    requires n <= |log|
    ensures Ends(log[..n]) <= Ends(log)
    decreases |log|
  {
    if n < |log| {
      EndsGrow(log[..|log| - 1], n);
      assert log[..|log| - 1][..n] == log[..n];
    } else {
      assert log[..n] == log;
    }
  }

  lemma {:induction false} EndsEmpty(log: seq<Mark>)
    ensures Ends(log) == [] <==> forall i :: 0 <= i < |log| ==> !log[i].End?
  {
    if log != [] {
      EndsEmpty(log[..|log| - 1]);
      assert forall i :: 0 <= i < |log| - 1 ==> log[i] == log[..|log| - 1][i];
    }
  }

  /** The record holds the first of the terminations, as a code or as a signal but never both. */
  predicate RecordsFirst(r: Record, ends: seq<Termination>) {
    if ends == [] then r.exitCode == None && r.signal == ""
    else
      match ends[0]
      case Exit(code) => r.exitCode == Some(code) && r.signal == ""
      case Killed(name) => r.exitCode == None && r.signal == name && name != ""
  }

  lemma FirstEndStep(r: Record, ends: seq<Termination>, m: Mark)
    requires RecordsFirst(r, ends) && ValidMark(m)
    ensures Ended(r) <==> ends != []
    ensures RecordsFirst(Applied(r, m), ends + if m.End? then [m.t] else [])
    ensures Applied(r, m).outcome ==
      match m
      case Sent => Unknown
      case Refused => NotStarted
      case End(_) => if ends == [] then Completed else r.outcome
      case _ => r.outcome
    ensures Applied(r, m).cleanupErr == r.cleanupErr
    ensures Applied(r, m).executionErr == [] <==>
      match m
      case SendFailed => false
      case Refused => false
      case End(t) => r.executionErr == [] && (ends == [] ==> t == Exit(0))
      case _ => r.executionErr == []
    ensures Applied(r, m).ioErr == [] <==> r.ioErr == [] && !m.Trouble? && (m.End? ==> ends == [])
  {
  }

  /** The first termination reported is the one recorded, whatever follows. */
  lemma {:induction false} FirstEndWins(log: seq<Mark>)
    requires Ordered(log)
    ensures RecordsFirst(Replay(log), Ends(log))
  {
    if log != [] {
      var n := |log| - 1;
      OrderedPrefix(log, n);
      FirstEndWins(log[..n]);
      FirstEndStep(Replay(log[..n]), Ends(log[..n]), log[n]);
    }
  }

  /** No first termination was recorded after position `i`. */
  predicate LastWord(log: seq<Mark>, i: nat)
    requires i <= |log|
  {
    Ends(log) == [] || Ends(log[..i]) != []
  }

  /** The last word of the log so far is a refusal. */
  ghost predicate RefusedLast(log: seq<Mark>) {
    exists i :: 0 <= i < |log| && log[i].Refused? && LastWord(log, i)
  }

  lemma LastWordStep(log: seq<Mark>, i: nat)
    requires i < |log| - 1
    ensures LastWord(log, i) <==>
      LastWord(log[..|log| - 1], i) && !(log[|log| - 1].End? && Ends(log[..|log| - 1]) == [])
  {
    var prefix := log[..|log| - 1];
    assert log[..i] == prefix[..i];
    EndsGrow(prefix, i);
  }

  lemma RefusedLastStep(log: seq<Mark>)
    requires log != []
    ensures var n := |log| - 1; var prefix := log[..n];
      RefusedLast(log) <==> log[n].Refused? || (RefusedLast(prefix) && !(log[n].End? && Ends(prefix) == []))
  {
    var n := |log| - 1;
    var prefix := log[..n];
    assert log[n].Refused? ==> LastWord(log, n);
    forall i | 0 <= i < n
      ensures log[i] == prefix[i]
      ensures LastWord(log, i) <==> LastWord(prefix, i) && !(log[n].End? && Ends(prefix) == [])
    {
      LastWordStep(log, i);
    }
  }

  /** The record says that nothing was started exactly when nothing was announced or a refusal was the last word. */
  lemma {:induction false} NotStartedExactly(log: seq<Mark>)
    requires Ordered(log)
    ensures Replay(log).outcome == NotStarted <==> (Sent !in log && Ends(log) == []) || RefusedLast(log)
  {
    if log != [] {
      var n := |log| - 1;
      var prefix := log[..n];
      OrderedPrefix(log, n);
      NotStartedExactly(prefix);
      FirstEndWins(prefix);
      FirstEndStep(Replay(prefix), Ends(prefix), log[n]);
      assert log == prefix + [log[n]];
      RefusedLastStep(log);
      assert log[n].Sent? ==> !RefusedLast(prefix);
    }
  }

  /** The request was announced at `i`, was not refused, and no first termination came after that. */
  predicate SentLastAt(log: seq<Mark>, i: nat)
    requires i < |log|
  {
    log[i].Sent? && Refused !in log && LastWord(log, i)
  }

  ghost predicate SentLast(log: seq<Mark>) {
    exists i :: 0 <= i < |log| && SentLastAt(log, i)
  }

  lemma SentLastStep(log: seq<Mark>)
    requires log != [] && Ordered(log)
    ensures var n := |log| - 1; var prefix := log[..n];
      SentLast(log) <==>
        log[n].Sent? || (SentLast(prefix) && !log[n].Refused? && !(log[n].End? && Ends(prefix) == []))
  {
    var n := |log| - 1;
    var prefix := log[..n];
    assert log == prefix + [log[n]];
    if log[n].Sent? {
      forall i | 0 <= i < |log| ensures log[i] != Refused {
        assert i < n ==> !Answer(log[i]);
      }
      assert SentLastAt(log, n);
    }
    forall i | 0 <= i < n
      ensures SentLastAt(log, i) <==>
        SentLastAt(prefix, i) && !log[n].Refused? && !(log[n].End? && Ends(prefix) == [])
    {
      LastWordStep(log, i);
    }
  }

  /**
   The record says unknown exactly when the request was announced and nothing followed that decides the outcome: no
   refusal, and no termination unless one had already been recorded before.
   */
  lemma {:induction false} UnknownExactly(log: seq<Mark>)
    requires Ordered(log)
    ensures Replay(log).outcome == Unknown <==> SentLast(log)
  {
    if log != [] {
      var n := |log| - 1;
      OrderedPrefix(log, n);
      UnknownExactly(log[..n]);
      FirstEndWins(log[..n]);
      FirstEndStep(Replay(log[..n]), Ends(log[..n]), log[n]);
      SentLastStep(log);
    }
  }

  /** The record says completed exactly when the first termination came after the announcement and any refusal. */
  lemma {:induction false} CompletedExactly(log: seq<Mark>)
    requires Ordered(log)
    ensures Replay(log).outcome == Completed <==> Decided(log)
  {
    if log != [] {
      var n := |log| - 1;
      var prefix := log[..n];
      OrderedPrefix(log, n);
      CompletedExactly(prefix);
      FirstEndWins(prefix);
      FirstEndStep(Replay(prefix), Ends(prefix), log[n]);
      DecidedStep(log);
    }
  }

  lemma DecidedAtStep(log: seq<Mark>, i: nat)
    requires i < |log| - 1
    ensures var n := |log| - 1;
      DecidedAt(log, i) <==> DecidedAt(log[..n], i) && !log[n].Sent? && !log[n].Refused?
  {
    var n := |log| - 1;
    var prefix := log[..n];
    assert log[..i] == prefix[..i];
    assert forall j :: i <= j < n ==> log[j] == prefix[j];
  }

  lemma DecidedStep(log: seq<Mark>)
    requires log != []
    ensures var n := |log| - 1; var prefix := log[..n];
      Decided(log) <==> (log[n].End? && Ends(prefix) == []) || (Decided(prefix) && !log[n].Sent? && !log[n].Refused?)
  {
    var n := |log| - 1;
    var prefix := log[..n];
    assert log[n].End? && Ends(prefix) == [] ==> DecidedAt(log, n);
    forall i | 0 <= i < n ensures DecidedAt(log, i) <==> DecidedAt(prefix, i) && !log[n].Sent? && !log[n].Refused? {
      DecidedAtStep(log, i);
    }
  }

  ghost predicate Decided(log: seq<Mark>) {
    exists i :: 0 <= i < |log| && DecidedAt(log, i)
  }

  /** Position `i` is the first termination, with no announcement or refusal after it. */
  predicate DecidedAt(log: seq<Mark>, i: nat)
    requires i < |log|
  {
    log[i].End? && Ends(log[..i]) == [] && forall j :: i < j < |log| ==> !log[j].Sent? && !log[j].Refused?
  }

  /** Which errors a record holds. */
  lemma ErrorsExactly(log: seq<Mark>)
    requires Ordered(log)
    ensures var r := Replay(log);
      && r.cleanupErr == []
      && (r.executionErr == [] <==>
            SendFailed !in log && Refused !in log && (Ends(log) == [] || Ends(log)[0] == Exit(0)))
      && (r.ioErr == [] <==> |Ends(log)| <= 1 && Untroubled(log))
  {
    ExecutionErrorExactly(log);
    InputErrorExactly(log);
  }

  lemma {:induction false} ExecutionErrorExactly(log: seq<Mark>)
    requires Ordered(log)
    ensures Replay(log).cleanupErr == []
    ensures Replay(log).executionErr == [] <==>
      SendFailed !in log && Refused !in log && (Ends(log) == [] || Ends(log)[0] == Exit(0))
  {
    if log != [] {
      var n := |log| - 1;
      var prefix := log[..n];
      OrderedPrefix(log, n);
      ExecutionErrorExactly(prefix);
      FirstEndWins(prefix);
      FirstEndStep(Replay(prefix), Ends(prefix), log[n]);
      assert log == prefix + [log[n]];
    }
  }

  lemma {:induction false} InputErrorExactly(log: seq<Mark>)
    requires Ordered(log)
    ensures Replay(log).ioErr == [] <==> |Ends(log)| <= 1 && Untroubled(log)
  {
    if log != [] {
      var n := |log| - 1;
      var prefix := log[..n];
      OrderedPrefix(log, n);
      InputErrorExactly(prefix);
      FirstEndWins(prefix);
      FirstEndStep(Replay(prefix), Ends(prefix), log[n]);
      UntroubledStep(log);
      assert Ends(prefix) == [] <==> |Ends(prefix)| == 0;
    }
  }

  lemma UntroubledStep(log: seq<Mark>)
    requires log != []
    ensures Untroubled(log) <==> Untroubled(log[..|log| - 1]) && !log[|log| - 1].Trouble?
  {
    assert forall i :: 0 <= i < |log| - 1 ==> log[i] == log[..|log| - 1][i];
  }

  predicate Untroubled(log: seq<Mark>) {
    forall i :: 0 <= i < |log| ==> !log[i].Trouble?
  }

  /** Once announced, an unknown outcome is the only one that neither a refusal nor a termination explains. */
  lemma OutcomeExplained(log: seq<Mark>)
    requires Ordered(log) && Sent in log
    ensures Replay(log).outcome == NotStarted ==> Refused in log
    ensures Replay(log).outcome == Completed <==> Decided(log)
    ensures Decided(log) ==> Ends(log) != []
  {
    NotStartedExactly(log);
    CompletedExactly(log);
    EndsEmpty(log);
  }

  /** Nothing went wrong beside the termination itself. */
  predicate Smooth(log: seq<Mark>) {
    Untroubled(log) && SendFailed !in log && Refused !in log
  }

  /**
   When an announced execution reports no error at all: nothing went wrong around it, and the peer reported exactly
   one termination, exit status zero, after the announcement.
   */
  lemma SuccessExactly(log: seq<Mark>, waitErr: Err, cleanupErr: Err)
    requires Ordered(log) && Sent in log
    ensures ErrOf(Concluding(Replay(log), waitErr, cleanupErr)) == [] <==>
      waitErr == [] && cleanupErr == [] && Smooth(log) && Ends(log) == [Exit(0)] && Decided(log)
  {
    var r := Replay(log);
    var r' := Concluding(r, waitErr, cleanupErr);
    ErrorsExactly(log);
    OutcomeExplained(log);
    assert ErrOf(r') == [] <==> r'.executionErr == [] && r'.ioErr == [] && r'.cleanupErr == [];
    assert |Ends(log)| == 1 ==> Ends(log) == [Ends(log)[0]];
  }

  predicate BySender(m: Mark) {
    m.Sent? || Answer(m) || m == Trouble(InputFailure)
  }

  /** The updates that only the sender makes, in order. */
  function OfSender(log: seq<Mark>): seq<Mark> {
    if log == [] then []
    else OfSender(log[..|log| - 1]) + if BySender(log[|log| - 1]) then [log[|log| - 1]] else []
  }

  lemma OfSenderOneMore(log: seq<Mark>, m: Mark)
    ensures OfSender(log + [m]) == OfSender(log) + if BySender(m) then [m] else []
  {
    assert (log + [m])[..|log|] == log;
  }

  /** The terminations among a list of requests. */
  function Terminations(requests: seq<(Message, bool)>): seq<Termination> {
    if requests == [] then []
    else
      var n := |requests| - 1;
      Terminations(requests[..n]) + if Reported(requests[n].0).Some? then [Reported(requests[n].0).value] else []
  }

  lemma EndsOneMore(log: seq<Mark>, m: Mark)
    ensures Ends(log + [m]) == Ends(log) + if m.End? then [m.t] else []
  {
    assert (log + [m])[..|log|] == log;
  }

  /** Handling one request logs its termination, if it reports one, and perhaps a failure. */
  lemma RequestIsLogged(
    log0: seq<Mark>, before: seq<Mark>, seen: seq<Mark>, after: seq<Mark>, requests: seq<(Message, bool)>, i: nat)
    requires i < |requests| && Ends(before) == Ends(log0) + Terminations(requests[..i])
    requires var t := Reported(requests[i].0); seen == before + if t.Some? then [End(t.value)] else []
    requires after == seen || after == seen + [Trouble(ProtocolFailure)]
    ensures Ends(after) == Ends(log0) + Terminations(requests[..i + 1])
  {
    var t := Reported(requests[i].0);
    assert requests[..i + 1][..i] == requests[..i];
    if t.Some? { EndsOneMore(before, End(t.value)); } else { assert seen == before; }
    EndsOneMore(seen, Trouble(ProtocolFailure));
  }

  // ---------- The record behind its lock ----------

  /** commandObservation: every method is one update under the lock. */
  class Observation {
    var result: Record
    ghost var log: seq<Mark>

    ghost predicate Valid()
      reads this
    {
      result == Replay(log)
    }

    constructor ()
      ensures Valid() && log == []
    {
      result, log := NEW, [];
    }

    ghost method Note(m: Mark)
      requires result == Applied(Replay(log), m)
      modifies this`log
      ensures log == old(log) + [m] && Valid()
      ensures OfSender(log) == OfSender(old(log)) + if BySender(m) then [m] else []
    {
      OfSenderOneMore(log, m);
      log := log + [m];
      assert log[..|log| - 1] == old(log);
    }

    method AnnounceRequest()
      requires Valid()
      modifies this
      ensures Valid() && log == old(log) + [Sent] && OfSender(log) == OfSender(old(log)) + [Sent]
    {
      result := result.(phase := Requesting, outcome := Unknown);
      Note(Sent);
    }

    method RecordSendFailure()
      requires Valid()
      modifies this
      ensures Valid() && log == old(log) + [SendFailed] && OfSender(log) == OfSender(old(log)) + [SendFailed]
    {
      result := result.(executionErr := [SendFailure]);
      Note(SendFailed);
    }

    method RecordRejection()
      requires Valid()
      modifies this
      ensures Valid() && log == old(log) + [Refused] && OfSender(log) == OfSender(old(log)) + [Refused]
    {
      result := result.(phase := Requesting, outcome := NotStarted);
      result := result.(executionErr := [Rejection]);
      Note(Refused);
    }

    method RecordAcceptance()
      requires Valid()
      modifies this
      ensures Valid() && log == old(log) + [Confirmed] && OfSender(log) == OfSender(old(log)) + [Confirmed]
    {
      if result.outcome != Completed {
        result := result.(phase := Running);
      }
      Note(Confirmed);
    }

    /** A failure of the input sender or of an output reader is added to those before it. */
    method RecordTransferFailure(cause: Cause)
      requires Valid() && cause != ProtocolFailure
      modifies this
      ensures Valid() && log == old(log) + [Trouble(cause)]
      ensures cause == InputFailure ==> OfSender(log) == OfSender(old(log)) + [Trouble(cause)]
    {
      result := result.(ioErr := result.ioErr + [cause]);
      Note(Trouble(cause));
    }

    /** Only the first protocol failure is kept. */
    method RecordProtocolFailure()
      requires Valid()
      modifies this
      ensures Valid() && log == old(log) + [Trouble(ProtocolFailure)]
    {
      if result.ioErr == [] {
        result := result.(ioErr := [ProtocolFailure]);
      }
      Note(Trouble(ProtocolFailure));
    }

    /** observeCommandTermination: whether the request was recognised, and whether handling it failed. */
    method ObserveTermination(m: Message) returns (recognized: bool, failed: bool)
      requires Valid()
      modifies this
      ensures Valid()
      ensures recognized == Reported(m).Some? && failed == Malformed(m)
      ensures log == old(log) + if recognized then [End(Reported(m).value)] else []
    {
      match m
      case ExitStatus(status) =>
        if status == None {
          return false, true;
        }
        var code := status.value;
        if result.exitCode != None || result.signal != "" {
          if result.ioErr == [] {
            result := result.(ioErr := [Duplicate]);
          }
        } else {
          result := result.(phase := Finished, outcome := Completed, exitCode := Some(code));
          if code != 0 {
            result := result.(executionErr := [ExitError(code)]);
          }
        }
        Note(End(Exit(code)));
        return true, false;
      case ExitSignal(name) =>
        if name == None || name.value == "" {
          return false, true;
        }
        if result.exitCode != None || result.signal != "" {
          if result.ioErr == [] {
            result := result.(ioErr := [Duplicate]);
          }
        } else {
          result := result.(phase := Finished, outcome := Completed, signal := name.value);
          result := result.(executionErr := [SignalError(name.value)]);
        }
        Note(End(Killed(name.value)));
        return true, false;
      case OtherMessage =>
        return false, false;
    }

    /** observeCommandRequests: every request of the peer in turn; replying may fail. */
    method ObserveRequests(requests: seq<(Message, bool)>)
      requires Valid()
      modifies this
      ensures Valid()
      ensures Ends(log) == Ends(old(log)) + Terminations(requests)
    {
      var i := 0;
      while i < |requests|
        invariant 0 <= i <= |requests| && Valid()
        invariant Ends(log) == Ends(old(log)) + Terminations(requests[..i])
      {
        var (m, wantReply) := requests[i];
        ghost var before := log;
        var recognized, failed := ObserveTermination(m);
        ghost var seen := log;
        if wantReply {
          var replies: bool := *;
          failed := failed || !replies;
        }
        if failed {
          RecordProtocolFailure();
        }
        RequestIsLogged(old(log), before, seen, log, requests, i);
        i := i + 1;
      }
      assert requests[..i] == requests;
    }

    /** What observer and readers may do to the record while the sender does not hold the lock. */
    method OthersUpdate()
      requires Valid()
      modifies this
      ensures Valid() && OfSender(log) == OfSender(old(log))
    {
      var n: nat := *;
      while n > 0
        invariant Valid() && OfSender(log) == OfSender(old(log))
      {
        assert ValidMark(End(Exit(0)));
        var m: Mark :| !BySender(m) && ValidMark(m);
        result := Applied(result, m);
        Note(m);
        n := n - 1;
      }
    }

    /** The end of ExecuteCommand, once every worker has been joined. */
    method Conclude(waitErr: Err, cleanupErr: Err) returns (final: Record)
      requires Valid()
      ensures final == Concluding(Replay(log), waitErr, cleanupErr)
    {
      final := result;
      final := final.(cleanupErr := cleanupErr);
      if waitErr != [] {
        final := final.(executionErr := final.executionErr + waitErr);
      }
      if final.outcome == Unknown && final.executionErr == [] {
        final := final.(executionErr := [ExitMissing]);
      }
    }
  }
}
