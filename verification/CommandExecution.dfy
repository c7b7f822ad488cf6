/**
 One remote execution: a sender, an observer of the peer's requests, two output readers and a supervisor, interleaved
 freely. The peer may send any requests at any time, before or after its answer to the exec request, and everything
 that depends on the network may fail.
 */
module CommandExecution {
  import opened Prelude
  import opened CommandResult

  datatype Reply = Accept | Refuse | Lost

  datatype Sender = Idle | Checked | Announced | Answered(reply: Reply) | Told(reply: Reply) | Feeding | SenderDone

  datatype Observer = Listening | Recording | ObserverDone

  datatype Stream = Stdout | Stderr

  /** What the sender tells the supervisor about the start. */
  datatype Start = StartFailed(cause: Cause) | Started(accepted: bool)

  datatype Supervisor =
    | OpenChannel
    | AwaitStart
    | AwaitWorkers
    | Closing(waitErr: Err)
    | Returned(result: Record, waitErr: Err, cleanupErr: Err)

  /** `replies` lists the answers to all exec requests ever sent. */
  datatype Sys = Sys(
    sup: Supervisor, sender: Sender, observer: Observer, readers: set<Stream>,
    log: seq<Mark>, start: Option<Start>, replies: seq<Reply>, ctxDone: bool)

  datatype Act =
    | Expire
    | Refute(cause: Cause)          // validation or opening the channel fails
    | Open
    | CheckContext
    | Announce
    | SendExec(reply: Reply)
    | Tell
    | RecordAnswer
    | Feed(trouble: Option<Cause>)
    | Observe(m: Message, replyFails: bool)
    | RecordFailure
    | StopObserving
    | StopReading(stream: Stream, failed: bool)
    | TakeStart
    | StartTimeout
    | JoinWorkers
    | StopWaiting
    | Return(cleanupErr: Err)

  predicate WorkersDone(s: Sys) {
    s.sender == SenderDone && s.observer == ObserverDone && s.readers == {}
  }

  predicate Opened(s: Sys) {
    s.sup.AwaitStart? || s.sup.AwaitWorkers? || s.sup.Closing?
  }

  predicate Enabled(s: Sys, a: Act) {
    match a
    case Expire => !s.ctxDone
    case Refute(_) => s.sup.OpenChannel?
    case Open => s.sup.OpenChannel?
    case CheckContext => Opened(s) && s.sender.Idle?
    case Announce => s.sender.Checked?
    case SendExec(_) => s.sender.Announced?
    case Tell => s.sender.Answered?
    case RecordAnswer => s.sender.Told?
    case Feed(cause) => s.sender.Feeding? && cause != Some(ProtocolFailure)
    case Observe(_, _) => Opened(s) && s.observer.Listening?
    case RecordFailure => s.observer.Recording?
    case StopObserving => Opened(s) && s.observer.Listening?
    case StopReading(stream, _) => Opened(s) && stream in s.readers
    case TakeStart => s.sup.AwaitStart? && s.start.Some?
    case StartTimeout => s.sup.AwaitStart?
    case JoinWorkers => s.sup.AwaitWorkers? && WorkersDone(s)
    case StopWaiting => s.sup.AwaitWorkers? && s.ctxDone
    case Return(_) => s.sup.Closing? && WorkersDone(s)
  }

  function After(s: Sys, a: Act): Sys
    requires Enabled(s, a)
  {
    match a
    case Expire => s.(ctxDone := true)
    case Refute(cause) => s.(sup := Returned(NEW.(executionErr := [cause]), [cause], []))
    case Open => s.(sup := AwaitStart)
    case CheckContext =>
      if s.ctxDone then s.(sender := SenderDone, start := Some(StartFailed(Interrupted)))
      else s.(sender := Checked)
    case Announce => s.(sender := Announced, log := s.log + [Sent])
    case SendExec(reply) => s.(sender := Answered(reply), replies := s.replies + [reply])
    case Tell =>
      var reply := s.sender.reply;
      s.(sender := Told(reply),
         start := Some(if reply == Lost then StartFailed(SendFailure) else Started(reply == Accept)))
    case RecordAnswer =>
      (match s.sender.reply
       case Lost => s.(sender := SenderDone, log := s.log + [SendFailed])
       case Refuse => s.(sender := SenderDone, log := s.log + [Refused])
       case Accept => s.(sender := Feeding, log := s.log + [Confirmed]))
    case Feed(cause) =>
      s.(sender := SenderDone, log := if cause.Some? then s.log + [Trouble(cause.value)] else s.log)
    case Observe(m, replyFails) =>
      s.(observer := if Malformed(m) || replyFails then Recording else Listening,
         log := if Reported(m).Some? then s.log + [End(Reported(m).value)] else s.log)
    case RecordFailure => s.(observer := Listening, log := s.log + [Trouble(ProtocolFailure)])
    case StopObserving => s.(observer := ObserverDone)
    case StopReading(stream, failed) =>
      s.(readers := s.readers - {stream}, log := if failed then s.log + [Trouble(OutputFailure)] else s.log)
    case TakeStart =>
      (match s.start.value
       case StartFailed(cause) => s.(sup := Closing([cause]))
       case Started(accepted) => s.(sup := if accepted then AwaitWorkers else Closing([])))
    case StartTimeout => s.(sup := Closing([Interrupted]))
    case JoinWorkers => s.(sup := Closing([]))
    case StopWaiting => s.(sup := Closing([Interrupted]))
    case Return(cleanupErr) =>
      s.(sup := Returned(Concluding(Replay(s.log), s.sup.waitErr, cleanupErr), s.sup.waitErr, cleanupErr))
  }

  predicate Init(s: Sys) {
    s == Sys(OpenChannel, Idle, Listening, {Stdout, Stderr}, [], None, [], s.ctxDone)
  }

  predicate Run(states: seq<Sys>, acts: seq<Act>) {
    && |states| == |acts| + 1
    && Init(states[0])
    && forall i {:trigger acts[i]} :: 0 <= i < |acts| ==>
         Enabled(states[i], acts[i]) && states[i + 1] == After(states[i], acts[i])
  }

  // ---------- Invariant ----------

  /** The log holds no word of the sender yet. */
  predicate Quiet(log: seq<Mark>) {
    forall i :: 0 <= i < |log| ==> !log[i].Sent? && !Answer(log[i])
  }

  predicate Unanswered(log: seq<Mark>) {
    forall i :: 0 <= i < |log| ==> !Answer(log[i])
  }

  function AnswerMark(reply: Reply): Mark {
    match reply case Accept => Confirmed case Refuse => Refused case Lost => SendFailed
  }

  /** The one answer in the log is the one received. */
  predicate Answers(log: seq<Mark>, reply: Reply) {
    && Sent in log && AnswerMark(reply) in log
    && forall i :: 0 <= i < |log| && Answer(log[i]) ==> log[i] == AnswerMark(reply)
  }

  predicate SenderOk(s: Sys) {
    match s.sender
    case Idle => Quiet(s.log) && s.replies == [] && s.start == None
    case Checked => Quiet(s.log) && s.replies == [] && s.start == None
    case Announced => Sent in s.log && Unanswered(s.log) && s.replies == [] && s.start == None
    case Answered(reply) => Sent in s.log && Unanswered(s.log) && s.replies == [reply] && s.start == None
    case Told(reply) => Sent in s.log && Unanswered(s.log) && s.replies == [reply]
    case Feeding => Answers(s.log, Accept) && s.replies == [Accept]
    case SenderDone =>
      || (Quiet(s.log) && s.replies == [])
      || (|s.replies| == 1 && Answers(s.log, s.replies[0]))
  }

  predicate StartOk(s: Sys) {
    match s.start
    case None => true
    case Some(Started(accepted)) => s.replies == [if accepted then Accept else Refuse]
    case Some(StartFailed(_)) => s.replies == [] || s.replies == [Lost]
  }

  predicate SupervisorOk(s: Sys) {
    match s.sup
    case OpenChannel => s.sender == Idle && s.observer == Listening && s.log == []
    case AwaitStart => true
    case AwaitWorkers => s.replies == [Accept]
    case Closing(waitErr) => waitErr == [] ==> s.replies == [Accept] || s.replies == [Refuse]
    case Returned(result, waitErr, cleanupErr) =>
      if s.sender == Idle then
        && s.observer == Listening && s.log == []
        && result == NEW.(executionErr := waitErr) && waitErr != [] && cleanupErr == []
      else
        && WorkersDone(s)
        && (waitErr == [] ==> s.replies == [Accept] || s.replies == [Refuse])
        && result == Concluding(Replay(s.log), waitErr, cleanupErr)
  }

  predicate Inv(s: Sys) {
    Ordered(s.log) && SenderOk(s) && StartOk(s) && SupervisorOk(s)
  }

  /** What one more mark does to what is known of the log. */
  lemma MarkKeeps(log: seq<Mark>, m: Mark)
    requires Ordered(log) && ValidMark(m) && (m.Sent? ==> Quiet(log))
    ensures Ordered(log + [m])
    ensures !m.Sent? && !Answer(m) && Quiet(log) ==> Quiet(log + [m])
    ensures !Answer(m) && Unanswered(log) ==> Unanswered(log + [m])
    ensures !Answer(m) && Answers(log, Accept) ==> Answers(log + [m], Accept)
    ensures !Answer(m) && Answers(log, Refuse) ==> Answers(log + [m], Refuse)
    ensures !Answer(m) && Answers(log, Lost) ==> Answers(log + [m], Lost)
    ensures Sent in log ==> Sent in log + [m]
    ensures m.Sent? ==> Sent in log + [m] && Unanswered(log + [m])
    ensures Answer(m) && Sent in log && Unanswered(log) ==>
      forall reply :: AnswerMark(reply) == m ==> Answers(log + [m], reply)
  {
    var log' := log + [m];
    assert log'[|log|] == m && forall i :: 0 <= i < |log| ==> log'[i] == log[i];
  }

  predicate OfTheSender(a: Act) {
    a.CheckContext? || a.Announce? || a.SendExec? || a.Tell? || a.RecordAnswer? || a.Feed?
  }

  predicate OfObservers(a: Act) {
    a.Observe? || a.RecordFailure? || a.StopObserving? || a.StopReading?
  }

  lemma AnswerKeeps(s: Sys)
    requires Inv(s) && Enabled(s, RecordAnswer)
    ensures Inv(After(s, RecordAnswer))
  {
    var reply := s.sender.reply;
    AnswerArrives(s.log, reply);
    assert After(s, RecordAnswer) ==
      s.(sender := if reply == Accept then Feeding else SenderDone, log := s.log + [AnswerMark(reply)]);
    assert !s.sup.Returned?;
  }

  lemma AnswerArrives(log: seq<Mark>, reply: Reply)
    requires Ordered(log) && Sent in log && Unanswered(log)
    ensures Ordered(log + [AnswerMark(reply)]) && Answers(log + [AnswerMark(reply)], reply)
  {
    MarkKeeps(log, AnswerMark(reply));
  }

  lemma SenderStepKeeps(s: Sys, a: Act)
    requires Inv(s) && Enabled(s, a) && OfTheSender(a)
    ensures Inv(After(s, a))
  {
    match a
    case RecordAnswer => AnswerKeeps(s);
    case Announce => MarkKeeps(s.log, Sent);
    case Feed(trouble) => if trouble.Some? { MarkKeeps(s.log, Trouble(trouble.value)); }
    case _ =>
  }

  /** Observers and readers add marks that say nothing about the sender. */
  predicate Noted(s: Sys, s': Sys, m: Mark) {
    && ValidMark(m) && !m.Sent? && !Answer(m)
    && s'.log == s.log + [m] && s'.sender == s.sender && s'.replies == s.replies && s'.start == s.start
    && s'.sup == s.sup && Opened(s)
  }

  lemma NotedKeeps(s: Sys, s': Sys, m: Mark)
    requires Inv(s) && Noted(s, s', m)
    ensures Inv(s')
  {
    MarkKeeps(s.log, m);
  }

  lemma ObserverStepKeeps(s: Sys, a: Act)
    requires Inv(s) && Enabled(s, a) && OfObservers(a)
    ensures Inv(After(s, a))
  {
    var s' := After(s, a);
    if a.Observe? && Reported(a.m).Some? {
      NotedKeeps(s, s', End(Reported(a.m).value));
    } else if a.RecordFailure? {
      NotedKeeps(s, s', Trouble(ProtocolFailure));
    } else if a.StopReading? && a.failed {
      NotedKeeps(s, s', Trouble(OutputFailure));
    } else {
      UnnotedKeeps(s, s');
    }
  }

  lemma UnnotedKeeps(s: Sys, s': Sys)
    requires Inv(s) && Opened(s) && s'.log == s.log && s'.sender == s.sender && s'.replies == s.replies
    requires s'.start == s.start && s'.sup == s.sup
    ensures Inv(s')
  {
  }

  lemma SupervisorStepKeeps(s: Sys, a: Act)
    requires Inv(s) && Enabled(s, a) && !OfTheSender(a) && !OfObservers(a)
    ensures Inv(After(s, a))
  {
    if a.Return? {
      ReturnKeeps(s, a.cleanupErr);
    } else if !a.Refute? {
      assert !After(s, a).sup.Returned? || After(s, a).sup == s.sup;
    }
  }

  lemma ReturnKeeps(s: Sys, cleanupErr: Err)
    requires Inv(s) && Enabled(s, Return(cleanupErr))
    ensures Inv(After(s, Return(cleanupErr)))
  {
  }

  lemma StepKeeps(s: Sys, a: Act)
    requires Inv(s) && Enabled(s, a)
    ensures Inv(After(s, a))
  {
    if OfTheSender(a) {
      SenderStepKeeps(s, a);
    } else if OfObservers(a) {
      ObserverStepKeeps(s, a);
    } else {
      SupervisorStepKeeps(s, a);
    }
  }

  lemma LogGrows(s: Sys, a: Act)
    requires Enabled(s, a)
    ensures s.log <= After(s, a).log
  {
  }

  lemma {:induction false} InvAt(states: seq<Sys>, acts: seq<Act>, i: nat)
    requires Run(states, acts) && i < |states|
    ensures Inv(states[i])
  {
    if i > 0 {
      InvAt(states, acts, i - 1);
      StepKeeps(states[i - 1], acts[i - 1]);
    }
  }

  lemma {:induction false} LogsGrow(states: seq<Sys>, acts: seq<Act>, i: nat, j: nat)
    requires Run(states, acts) && i <= j < |states|
    ensures states[i].log <= states[j].log
    decreases j - i
  {
    if i < j {
      LogsGrow(states, acts, i, j - 1);
      LogGrows(states[j - 1], acts[j - 1]);
    }
  }

  // ---------- What the outcome says, over every run ----------

  /** The exec request is sent at most once. */
  lemma SentAtMostOnce(states: seq<Sys>, acts: seq<Act>, i: nat)
    requires Run(states, acts) && i < |states|
    ensures |states[i].replies| <= 1
  {
    InvAt(states, acts, i);
  }

  /**
   Not started is reported only if the request was never sent or was refused. Exactly: nothing was sent and the peer
   reported no termination all the same, or it refused and reported no first termination after that.
   */
  lemma NotStartedIsSound(states: seq<Sys>, acts: seq<Act>)
    requires Run(states, acts) && states[|acts|].sup.Returned?
    ensures var s := states[|acts|];
      && (s.sup.result.outcome == NotStarted ==> s.replies == [] || s.replies == [Refuse])
      && (s.sup.result.outcome == NotStarted <==> (s.replies == [] && Ends(s.log) == []) || RefusedLast(s.log))
  {
    InvAt(states, acts, |acts|);
    var s := states[|acts|];
    NotStartedExactly(s.log);
    if RefusedLast(s.log) {
      var i :| 0 <= i < |s.log| && s.log[i].Refused? && LastWord(s.log, i);
      assert Answer(s.log[i]);
    }
  }

  /**
   No error at all is reported exactly when the request was accepted, the peer reported one termination, exit status
   zero, after the request was announced, and nothing else went wrong. Then the outcome is completed with code zero.
   */
  lemma SuccessIsSound(states: seq<Sys>, acts: seq<Act>)
    requires Run(states, acts) && states[|acts|].sup.Returned?
    ensures var s := states[|acts|]; var r := s.sup.result;
      && (ErrOf(r) == [] ==> r.outcome == Completed && r.exitCode == Some(0) && r.signal == "")
      && (ErrOf(r) == [] <==>
            && s.replies == [Accept] && Ends(s.log) == [Exit(0)] && Decided(s.log) && Untroubled(s.log)
            && s.sup.waitErr == [] && s.sup.cleanupErr == [])
  {
    InvAt(states, acts, |acts|);
    var s := states[|acts|];
    if s.replies != [] {
      SuccessExactly(s.log, s.sup.waitErr, s.sup.cleanupErr);
      OutcomeExplained(s.log);
      FirstEndWins(s.log);
    }
  }

  /** The outcome is unknown exactly when the announcement was the last word; it is never silent. */
  lemma UnknownIsReported(states: seq<Sys>, acts: seq<Act>)
    requires Run(states, acts) && states[|acts|].sup.Returned?
    ensures var s := states[|acts|];
      && (s.sup.result.outcome == Unknown <==> SentLast(s.log))
      && (SentLast(s.log) ==> |s.replies| == 1 && s.sup.result.executionErr != [])
  {
    InvAt(states, acts, |acts|);
    UnknownExactly(states[|acts|].log);
  }

  /** The first termination the peer reports is the one returned; later ones change neither code nor signal. */
  lemma FirstTerminationIsKept(states: seq<Sys>, acts: seq<Act>, i: nat)
    requires Run(states, acts) && i < |states| && Ends(states[i].log) != []
    ensures var early, late := Replay(states[i].log), Replay(states[|acts|].log);
      && Ends(states[i].log) <= Ends(states[|acts|].log)
      && RecordsFirst(early, Ends(states[i].log))
      && late.exitCode == early.exitCode && late.signal == early.signal
    ensures states[|acts|].sup.Returned? ==>
      RecordsFirst(states[|acts|].sup.result, Ends(states[|acts|].log))
  {
    InvAt(states, acts, i);
    InvAt(states, acts, |acts|);
    LogsGrow(states, acts, i, |acts|);
    var early, late := states[i].log, states[|acts|].log;
    FirstEndWins(early);
    FirstEndWins(late);
    assert late[..|early|] == early;
    EndsGrow(late, |early|);
  }

  /** The result is returned only after every worker has ended, and nothing is recorded afterwards. */
  lemma ReturnedIsFinal(states: seq<Sys>, acts: seq<Act>, i: nat)
    requires Run(states, acts) && i < |acts| && states[i].sup.Returned?
    ensures acts[i] == Expire && states[i + 1].sup == states[i].sup && states[i + 1].log == states[i].log
  {
    InvAt(states, acts, i);
  }

  // ---------- A successful execution ----------

  lemma OneMore(states: seq<Sys>, acts: seq<Act>, a: Act) returns (states': seq<Sys>, acts': seq<Act>)
    requires Run(states, acts) && Enabled(states[|acts|], a)
    ensures Run(states', acts') && states'[|acts'|] == After(states[|acts|], a)
  {
    states', acts' := states + [After(states[|acts|], a)], acts + [a];
  }

  lemma TheRequestIsSent() returns (states: seq<Sys>, acts: seq<Act>)
    ensures Run(states, acts)
    ensures states[|acts|] ==
      Sys(AwaitStart, Answered(Accept), Listening, {Stdout, Stderr}, [Sent], None, [Accept], false)
  {
    states, acts := [Sys(OpenChannel, Idle, Listening, {Stdout, Stderr}, [], None, [], false)], [];
    states, acts := OneMore(states, acts, Open);
    states, acts := OneMore(states, acts, CheckContext);
    states, acts := OneMore(states, acts, Announce);
    states, acts := OneMore(states, acts, SendExec(Accept));
  }

  lemma TheCommandRuns() returns (states: seq<Sys>, acts: seq<Act>)
    ensures Run(states, acts)
    ensures states[|acts|] == Sys(AwaitWorkers, SenderDone, Listening, {Stdout, Stderr}, [Sent, Confirmed],
      Some(Started(true)), [Accept], false)
  {
    states, acts := TheRequestIsSent();
    states, acts := OneMore(states, acts, Tell);
    states, acts := OneMore(states, acts, RecordAnswer);
    states, acts := OneMore(states, acts, TakeStart);
    states, acts := OneMore(states, acts, Feed(None));
  }

  lemma TheWorkersEnd() returns (states: seq<Sys>, acts: seq<Act>)
    ensures Run(states, acts)
    ensures states[|acts|] == Sys(AwaitWorkers, SenderDone, ObserverDone, {}, [Sent, Confirmed, End(Exit(0))],
      Some(Started(true)), [Accept], false)
  {
    states, acts := TheCommandRuns();
    states, acts := OneMore(states, acts, Observe(ExitStatus(Some(0)), false));
    states, acts := OneMore(states, acts, StopObserving);
    states, acts := OneMore(states, acts, StopReading(Stdout, false));
    states, acts := OneMore(states, acts, StopReading(Stderr, false));
    assert [Sent, Confirmed] + [End(Exit(0))] == [Sent, Confirmed, End(Exit(0))];
    assert {Stdout, Stderr} - {Stdout} - {Stderr} == {};
  }

  /** There is a run that returns no error at all. */
  lemma SuccessIsPossible() returns (states: seq<Sys>, acts: seq<Act>)
    ensures Run(states, acts) && states[|acts|].sup.Returned? && ErrOf(states[|acts|].sup.result) == []
  {
    states, acts := TheWorkersEnd();
    states, acts := OneMore(states, acts, JoinWorkers);
    states, acts := OneMore(states, acts, Return([]));
    SuccessfulLog(states[|acts|].log);
    SuccessIsSound(states, acts);
  }

  lemma SuccessfulLog(log: seq<Mark>)
    requires log == [Sent, Confirmed, End(Exit(0))]
    ensures Ends(log) == [Exit(0)] && Decided(log) && Untroubled(log)
  {
    var early: seq<Mark> := [Sent, Confirmed];
    EndsEmpty(early);
    EndsOneMore(early, End(Exit(0)));
    assert log == early + [End(Exit(0))] && log[..2] == early;
    assert DecidedAt(log, 2);
  }

  // ---------- Progress ----------

  function SenderWork(s: Sender): nat {
    match s
    case Idle => 6 case Checked => 5 case Announced => 4 case Answered(_) => 3 case Told(_) => 2 case Feeding => 1
    case SenderDone => 0
  }

  function Work(s: Sys): nat {
    SenderWork(s.sender) + (match s.observer case Recording => 2 case Listening => 1 case ObserverDone => 0)
    + |s.readers|
    + match s.sup
      case OpenChannel => 4 case AwaitStart => 3 case AwaitWorkers => 2 case Closing(_) => 1 case Returned(_, _, _) => 0
  }

  /** An execution is never stuck, and apart from the requests the peer sends it takes only so many steps. */
  lemma NeverStuck(states: seq<Sys>, acts: seq<Act>) returns (a: Act)
    requires Run(states, acts) && !states[|acts|].sup.Returned?
    ensures Enabled(states[|acts|], a) && !a.Observe? && !a.Expire?
  {
    InvAt(states, acts, |acts|);
    var s := states[|acts|];
    a := match s.sender {
      case Idle => if s.sup.OpenChannel? then Open else CheckContext
      case Checked => Announce
      case Announced => SendExec(Lost)
      case Answered(_) => Tell
      case Told(_) => RecordAnswer
      case Feeding => Feed(None)
      case SenderDone =>
        if s.observer.Recording? then RecordFailure
        else if s.observer.Listening? then StopObserving
        else if s.readers != {} then (var stream :| stream in s.readers; StopReading(stream, false))
        else if s.sup.AwaitStart? then StartTimeout
        else if s.sup.AwaitWorkers? then JoinWorkers
        else Return([])
    };
  }

  lemma StepsAreBounded(s: Sys, a: Act)
    requires Enabled(s, a) && !a.Observe? && !a.Expire?
    ensures Work(After(s, a)) < Work(s)
  {
    if a.StopReading? {
      assert |s.readers - {a.stream}| == |s.readers| - 1;
    } else if OfTheSender(a) {
      SenderStepsAreBounded(s, a);
    } else {
      OtherStepsAreBounded(s, a);
    }
  }

  lemma OtherStepsAreBounded(s: Sys, a: Act)
    requires Enabled(s, a) && !a.Observe? && !a.Expire? && !a.StopReading? && !OfTheSender(a)
    ensures Work(After(s, a)) < Work(s)
  {
  }

  lemma SenderStepsAreBounded(s: Sys, a: Act)
    requires Enabled(s, a) && OfTheSender(a)
    ensures Work(After(s, a)) < Work(s)
  {
  }

  // ---------- The sender ----------

  /**
   sendCommandInput, while observer and readers update the same record: what it tells the supervisor, and the updates
   it makes itself.
   */
  method SendCommandInput(o: Observation) returns (start: Start)
    requires o.Valid()
    modifies o
    ensures o.Valid()
    ensures var own, own' := old(OfSender(o.log)), OfSender(o.log);
      match start
      case StartFailed(Interrupted) => own' == own
      case StartFailed(cause) => cause == SendFailure && own' == own + [Sent, SendFailed]
      case Started(false) => own' == own + [Sent, Refused]
      case Started(true) =>
        own' == own + [Sent, Confirmed] || own' == own + [Sent, Confirmed, Trouble(InputFailure)]
  {
    o.OthersUpdate();
    var expired: bool := *;
    if expired {
      return StartFailed(Interrupted);
    }
    o.AnnounceRequest();
    start := SendRequest(o);
  }

  /** From the announcement on: the request is sent, its answer recorded, and the input copied. */
  method SendRequest(o: Observation) returns (start: Start)
    requires o.Valid()
    modifies o
    ensures o.Valid()
    ensures var own, own' := old(OfSender(o.log)), OfSender(o.log);
      match start
      case StartFailed(cause) => cause == SendFailure && own' == own + [SendFailed]
      case Started(false) => own' == own + [Refused]
      case Started(true) => own' == own + [Confirmed] || own' == own + [Confirmed, Trouble(InputFailure)]
  {
    o.OthersUpdate();
    var sends: bool, accepted: bool := *, *;
    if !sends {
      o.RecordSendFailure();
      return StartFailed(SendFailure);
    }
    if !accepted {
      o.RecordRejection();
      return Started(false);
    }
    o.RecordAcceptance();
    o.OthersUpdate();
    var inputFails: bool := *;
    if inputFails {
      o.RecordTransferFailure(InputFailure);
    }
    return Started(true);
  }
}
