/**
 The single-use lifecycle of the interactive shell and the ownership of its line editor.

 Each critical section of the lifecycle mutex (which nests the line mutex) is one step; goroutines that run the
 shell, close it, replace the line editor or drop it interleave freely.
 */
module ShellLifecycle {
  import opened Prelude

  datatype State = Created | Running | Stopped | Closed

  function Rank(state: State): nat {
    match state
    case Created => 0
    case Running => 1
    case Stopped => 2
    case Closed => 3
  }

  /** What a goroutine does after it has dropped the line editor. */
  datatype Then = Return | EndingRun | FinishingClose

  datatype Pc =
    | Idle
    | BeginRun
    | InRun
    | EndRun
    | NewEditor
    | PublishEditor(editor: nat)
    | TakeLine(next: Then)
    | CloseEditor(taken: nat, next: Then)
    | BeginClose
    | WaitRun
    | FinishClose
    | AwaitClose

  /**
   `runDone` and `closeDone` are None until the channel is made, then whether it is closed. The last fields are
   history: who won the run and the close, which editors were closed, and whether a closed channel was closed again.
   */
  datatype Sys = Sys(
    state: State, runDone: Option<bool>, closeDone: Option<bool>, line: Option<nat>, pcs: seq<Pc>,
    created: nat, closedEditors: set<nat>, runner: Option<nat>, closer: Option<nat>, swept: bool, doubleClose: bool)

  datatype Act = Start(pc: Pc) | Go(ok: bool) | Expire

  predicate Enabled(s: Sys, t: nat, a: Act) {
    t < |s.pcs| &&
    match a
    case Start(pc) => s.pcs[t] == Idle && (pc.BeginRun? || pc.NewEditor? || pc == TakeLine(Return) || pc.BeginClose?)
    case Go(_) => CanGo(s, s.pcs[t])
    case Expire => s.pcs[t].WaitRun? || s.pcs[t].AwaitClose?
  }

  predicate CanGo(s: Sys, pc: Pc) {
    match pc
    case Idle => false
    case WaitRun => s.runDone != Some(false)
    case AwaitClose => s.closeDone == Some(true)
    case _ => true
  }

  function At(s: Sys, t: nat, pc: Pc): Sys
    requires t < |s.pcs|
  {
    s.(pcs := s.pcs[t := pc])
  }

  function After(next: Then): Pc {
    match next
    case Return => Idle
    case EndingRun => EndRun
    case FinishingClose => FinishClose
  }

  function StepRun(s: Sys, t: nat): Sys
    requires t < |s.pcs|
  {
    match s.pcs[t]
    case BeginRun =>
      if s.state == Created then At(s.(state := Running, runDone := Some(false), runner := Some(t)), t, InRun)
      else At(s, t, Idle)
    case InRun => At(s, t, TakeLine(EndingRun))
    case EndRun =>
      At(s.(state := if s.state == Running then Stopped else s.state, runDone := Some(true),
            doubleClose := s.doubleClose || s.runDone == Some(true)), t, Idle)
    case _ => s
  }

  /** resetLineEditor and closeLineEditor. `ok` says that creation succeeded and the context is live. */
  function StepEditor(s: Sys, t: nat, ok: bool): Sys
    requires t < |s.pcs|
  {
    match s.pcs[t]
    case NewEditor =>
      if ok then At(s.(created := s.created + 1), t, PublishEditor(s.created)) else At(s, t, Idle)
    case PublishEditor(e) =>
      if s.state != Running || !ok then At(s, t, CloseEditor(e, Return))
      else At(s.(line := Some(e)), t, if s.line.Some? then CloseEditor(s.line.value, Return) else Idle)
    case TakeLine(next) =>
      At(s.(line := None, swept := s.swept || next == FinishingClose), t,
         if s.line.Some? then CloseEditor(s.line.value, next) else After(next))
    case CloseEditor(e, next) => At(s.(closedEditors := s.closedEditors + {e}), t, After(next))
    case _ => s
  }

  function StepClose(s: Sys, t: nat): Sys
    requires t < |s.pcs|
  {
    match s.pcs[t]
    case BeginClose =>
      if s.state == Closed then At(s, t, AwaitClose)
      else At(s.(state := Closed, closeDone := Some(false), closer := Some(t)), t, WaitRun)
    case WaitRun => At(s, t, TakeLine(FinishingClose))
    case FinishClose =>
      At(s.(closeDone := Some(true), doubleClose := s.doubleClose || s.closeDone == Some(true)), t, Idle)
    case AwaitClose => At(s, t, Idle)
    case _ => s
  }

  function Next(s: Sys, t: nat, a: Act): Sys
    requires Enabled(s, t, a)
  {
    match a
    case Start(pc) => At(s, t, pc)
    case Go(ok) =>
      var pc := s.pcs[t];
      if pc.BeginRun? || pc.InRun? || pc.EndRun? then StepRun(s, t)
      else if pc.BeginClose? || pc.WaitRun? || pc.FinishClose? || pc.AwaitClose? then StepClose(s, t)
      else StepEditor(s, t, ok)
    case Expire => StepClose(s, t)
  }

  predicate Init(s: Sys) {
    && (forall t :: 0 <= t < |s.pcs| ==> s.pcs[t] == Idle)
    && s == Sys(Created, None, None, None, s.pcs, 0, {}, None, None, false, false)
  }

  datatype Event = Event(thread: nat, act: Act)

  predicate Enacts(s: Sys, e: Event, s': Sys) {
    Enabled(s, e.thread, e.act) && s' == Next(s, e.thread, e.act)
  }

  predicate Run(states: seq<Sys>, events: seq<Event>) {
    && |states| == |events| + 1
    && Init(states[0])
    && forall i {:trigger events[i]} :: 0 <= i < |events| ==> Enacts(states[i], events[i], states[i + 1])
  }

  // ---------- Invariant ----------

  predicate Runs(pc: Pc) {
    pc.InRun? || pc.EndRun? || ((pc.TakeLine? || pc.CloseEditor?) && pc.next == EndingRun)
  }

  predicate Closes(pc: Pc) {
    pc.WaitRun? || pc.FinishClose? || ((pc.TakeLine? || pc.CloseEditor?) && pc.next == FinishingClose)
  }

  function Held(pc: Pc): Option<nat> {
    match pc
    case PublishEditor(e) => Some(e)
    case CloseEditor(e, _) => Some(e)
    case _ => None
  }

  ghost predicate InHand(s: Sys, e: nat) {
    exists t :: 0 <= t < |s.pcs| && Held(s.pcs[t]) == Some(e)
  }

  ghost predicate Conserved(s: Sys) {
    forall e: nat :: e < s.created ==> s.line == Some(e) || e in s.closedEditors || InHand(s, e)
  }

  /** One goroutine runs the shell, while its channel is open; one closes it, while its channel is open. */
  predicate Owners(s: Sys) {
    && (forall t :: 0 <= t < |s.pcs| ==> (Runs(s.pcs[t]) <==> s.runner == Some(t) && s.runDone == Some(false)))
    && (forall t :: 0 <= t < |s.pcs| ==> (Closes(s.pcs[t]) <==> s.closer == Some(t) && s.closeDone == Some(false)))
    && (s.state == Created <==> s.closer.None? && s.runner.None?)
    && (s.runner.None? <==> s.runDone.None?) && (s.closer.None? <==> s.closeDone.None?)
    && (s.state == Closed <==> s.closer.Some?)
    && (s.state == Running ==> s.runDone == Some(false))
    && (s.runner.Some? ==> s.runner.value < |s.pcs|) && (s.closer.Some? ==> s.closer.value < |s.pcs|)
    && !s.doubleClose
  }

  /** Once the closer has dropped the line editor, none is ever published again. */
  predicate Swept(s: Sys) {
    && (s.swept ==> s.line == None && s.state == Closed)
    && (s.closeDone == Some(true) ==> s.swept)
    && (forall t :: 0 <= t < |s.pcs| ==>
          s.pcs[t] == FinishClose || (s.pcs[t].CloseEditor? && s.pcs[t].next == FinishingClose) ==> s.swept)
  }

  ghost predicate Inv(s: Sys) {
    Owners(s) && Swept(s) && Conserved(s)
  }

  /** Only what the acting goroutine holds, and what is published, can change hands. */
  lemma HandsKeep(s: Sys, s': Sys, t: nat)
    requires Conserved(s) && t < |s.pcs| && |s'.pcs| == |s.pcs| && s'.pcs == s.pcs[t := s'.pcs[t]]
    requires s.closedEditors <= s'.closedEditors && s.created <= s'.created
    requires forall e: nat :: e < s'.created && (s.line == Some(e) || Held(s.pcs[t]) == Some(e) || e >= s.created) ==>
      s'.line == Some(e) || e in s'.closedEditors || Held(s'.pcs[t]) == Some(e)
    ensures Conserved(s')
  {
    forall e: nat | e < s'.created ensures s'.line == Some(e) || e in s'.closedEditors || InHand(s', e) {
      if e < s.created && s.line != Some(e) && Held(s.pcs[t]) != Some(e) && InHand(s, e) {
        var h :| 0 <= h < |s.pcs| && Held(s.pcs[h]) == Some(e);
        assert Held(s'.pcs[h]) == Some(e);
      }
    }
  }

  lemma RunStepKeeps(s: Sys, t: nat)
    requires Inv(s) && t < |s.pcs| && (s.pcs[t].BeginRun? || s.pcs[t].InRun? || s.pcs[t].EndRun?)
    ensures Inv(StepRun(s, t))
  {
    if s.pcs[t].BeginRun? {
      BeginRunKeeps(s, t);
    } else {
      HandsKeep(s, StepRun(s, t), t);
    }
  }

  lemma BeginRunKeeps(s: Sys, t: nat)
    requires Inv(s) && t < |s.pcs| && s.pcs[t].BeginRun?
    ensures Inv(StepRun(s, t))
  {
    HandsKeep(s, StepRun(s, t), t);
  }

  lemma CloseStepKeeps(s: Sys, t: nat)
    requires Inv(s) && t < |s.pcs|
    requires s.pcs[t].BeginClose? || s.pcs[t].WaitRun? || s.pcs[t].FinishClose? || s.pcs[t].AwaitClose?
    ensures Inv(StepClose(s, t))
  {
    if s.pcs[t].BeginClose? {
      BeginCloseKeeps(s, t);
    } else if s.pcs[t].FinishClose? {
      FinishCloseKeeps(s, t);
    } else {
      HandsKeep(s, StepClose(s, t), t);
    }
  }

  lemma BeginCloseKeeps(s: Sys, t: nat)
    requires Inv(s) && t < |s.pcs| && s.pcs[t].BeginClose?
    ensures Inv(StepClose(s, t))
  {
    BeginCloseOwns(s, t);
    HandsKeep(s, StepClose(s, t), t);
  }

  lemma BeginCloseOwns(s: Sys, t: nat)
    requires Owners(s) && t < |s.pcs| && s.pcs[t].BeginClose?
    ensures Owners(StepClose(s, t))
  {
  }

  lemma FinishCloseKeeps(s: Sys, t: nat)
    requires Inv(s) && t < |s.pcs| && s.pcs[t].FinishClose?
    ensures Inv(StepClose(s, t))
  {
    HandsKeep(s, StepClose(s, t), t);
  }

  lemma TakeLineKeeps(s: Sys, t: nat, ok: bool)
    requires Inv(s) && t < |s.pcs| && s.pcs[t].TakeLine?
    ensures Inv(StepEditor(s, t, ok))
  {
    HandsKeep(s, StepEditor(s, t, ok), t);
  }

  lemma CloseEditorKeeps(s: Sys, t: nat, ok: bool)
    requires Inv(s) && t < |s.pcs| && s.pcs[t].CloseEditor?
    ensures Inv(StepEditor(s, t, ok))
  {
    HandsKeep(s, StepEditor(s, t, ok), t);
  }

  lemma NewEditorKeeps(s: Sys, t: nat, ok: bool)
    requires Inv(s) && t < |s.pcs| && s.pcs[t].NewEditor?
    ensures Inv(StepEditor(s, t, ok))
  {
    HandsKeep(s, StepEditor(s, t, ok), t);
  }

  lemma PublishEditorKeeps(s: Sys, t: nat, ok: bool)
    requires Inv(s) && t < |s.pcs| && s.pcs[t].PublishEditor?
    ensures Inv(StepEditor(s, t, ok))
  {
    HandsKeep(s, StepEditor(s, t, ok), t);
  }

  lemma StartKeeps(s: Sys, t: nat, pc: Pc)
    requires Inv(s) && Enabled(s, t, Start(pc))
    ensures Inv(At(s, t, pc))
  {
    HandsKeep(s, At(s, t, pc), t);
  }

  lemma StepKeeps(s: Sys, t: nat, a: Act)
    requires Inv(s) && Enabled(s, t, a)
    ensures Inv(Next(s, t, a))
  {
    match a
    case Start(pc) => StartKeeps(s, t, pc);
    case Expire => CloseStepKeeps(s, t);
    case Go(ok) =>
      var pc := s.pcs[t];
      if pc.BeginRun? || pc.InRun? || pc.EndRun? {
        RunStepKeeps(s, t);
      } else if pc.TakeLine? {
        TakeLineKeeps(s, t, ok);
      } else if pc.CloseEditor? {
        CloseEditorKeeps(s, t, ok);
      } else if pc.NewEditor? {
        NewEditorKeeps(s, t, ok);
      } else if pc.PublishEditor? {
        PublishEditorKeeps(s, t, ok);
      } else {
        CloseStepKeeps(s, t);
      }
  }

  lemma {:induction false} InvAt(states: seq<Sys>, events: seq<Event>, i: nat)
    requires Run(states, events) && i < |states|
    ensures Inv(states[i])
  {
    if i > 0 {
      InvAt(states, events, i - 1);
      assert Enacts(states[i - 1], events[i - 1], states[i]);
      StepKeeps(states[i - 1], events[i - 1].thread, events[i - 1].act);
    }
  }

  // ---------- What every run guarantees ----------

  predicate Forward(s: Sys, s': Sys) {
    && Rank(s.state) <= Rank(s'.state)
    && (s.runner.Some? ==> s'.runner == s.runner)
    && (s.closer.Some? ==> s'.closer == s.closer)
    && (s.swept ==> s'.swept)
  }

  lemma StepForward(s: Sys, t: nat, a: Act)
    requires Inv(s) && Enabled(s, t, a)
    ensures Forward(s, Next(s, t, a))
  {
    if a.Go? {
      GoesForward(s, t, a.ok);
    }
  }

  lemma GoesForward(s: Sys, t: nat, ok: bool)
    requires Inv(s) && Enabled(s, t, Go(ok))
    ensures Forward(s, Next(s, t, Go(ok)))
  {
  }

  lemma EventForward(states: seq<Sys>, events: seq<Event>, i: nat)
    requires Run(states, events) && i < |events|
    ensures Forward(states[i], states[i + 1])
  {
    InvAt(states, events, i);
    assert Enacts(states[i], events[i], states[i + 1]);
    StepForward(states[i], events[i].thread, events[i].act);
  }

  lemma {:induction false} ForwardChain(states: seq<Sys>, i: nat, j: nat)
    requires i <= j < |states|
    requires forall k :: i <= k < j ==> Forward(states[k], states[k + 1])
    ensures Forward(states[i], states[j])
    decreases j - i
  {
    if i < j {
      ForwardChain(states, i, j - 1);
      assert Forward(states[j - 1], states[j - 1 + 1]);
    }
  }

  lemma RunForward(states: seq<Sys>, events: seq<Event>, i: nat, j: nat)
    requires Run(states, events) && i <= j < |states|
    ensures Forward(states[i], states[j])
  {
    forall k | i <= k < j ensures Forward(states[k], states[k + 1]) {
      EventForward(states, events, k);
    }
    ForwardChain(states, i, j);
  }

  /** The lifecycle only moves forward, has one run and one effective close, and closes each channel once. */
  lemma LifecycleForward(states: seq<Sys>, events: seq<Event>, i: nat, j: nat)
    requires Run(states, events) && i <= j < |states|
    ensures Rank(states[i].state) <= Rank(states[j].state)
    ensures states[i].runner.Some? ==> states[j].runner == states[i].runner
    ensures states[i].closer.Some? ==> states[j].closer == states[i].closer
    ensures !states[j].doubleClose
  {
    InvAt(states, events, j);
    RunForward(states, events, i, j);
  }

  /** After Close has returned to its first caller, no line editor is ever published again. */
  lemma NoEditorAfterClose(states: seq<Sys>, events: seq<Event>, i: nat, j: nat)
    requires Run(states, events) && i <= j < |states|
    requires states[i].closeDone == Some(true)
    ensures states[j].line == None && states[j].state == Closed
  {
    InvAt(states, events, i);
    InvAt(states, events, j);
    RunForward(states, events, i, j);
  }

  /** Every editor ever created is closed by the time a closed shell comes to rest. */
  lemma NoEditorSurvivesClose(states: seq<Sys>, events: seq<Event>, i: nat, e: nat)
    requires Run(states, events) && i < |states| && e < states[i].created
    requires states[i].closer.Some?
    requires forall t :: 0 <= t < |states[i].pcs| ==> states[i].pcs[t] == Idle
    ensures e in states[i].closedEditors
  {
    InvAt(states, events, i);
    var s := states[i];
    assert Inv(s);
    assert s.pcs[s.closer.value] == Idle;
    assert s.closeDone.value;
    assert s.closeDone == Some(true) && s.line == None;
  }

  /** The closer goes on, unless its context expires, only when no goroutine is running the shell any more. */
  lemma CloseWaitsForRun(states: seq<Sys>, events: seq<Event>, i: nat, ok: bool)
    requires Run(states, events) && i < |events| && events[i].act == Go(ok)
    requires events[i].thread < |states[i].pcs| && states[i].pcs[events[i].thread].WaitRun?
    ensures forall t :: 0 <= t < |states[i].pcs| ==> !Runs(states[i].pcs[t])
  {
    InvAt(states, events, i);
    assert Enacts(states[i], events[i], states[i + 1]);
  }

  /** Another caller of Close returns, unless its context expires, only when the first one has finished. */
  lemma CloseWaitsForClose(states: seq<Sys>, events: seq<Event>, i: nat, ok: bool)
    requires Run(states, events) && i < |events| && events[i].act == Go(ok)
    requires events[i].thread < |states[i].pcs| && states[i].pcs[events[i].thread].AwaitClose?
    ensures states[i].state == Closed && states[i].line == None
    ensures forall t :: 0 <= t < |states[i].pcs| ==> !Closes(states[i].pcs[t])
  {
    InvAt(states, events, i);
    assert Enacts(states[i], events[i], states[i + 1]);
  }

  // ---------- A whole life ----------

  lemma OneMore(states: seq<Sys>, events: seq<Event>, t: nat, a: Act) returns (states': seq<Sys>, events': seq<Event>)
    requires Run(states, events) && Enabled(states[|events|], t, a)
    ensures Run(states', events') && states'[|events'|] == Next(states[|events|], t, a)
  {
    var e := Event(t, a);
    states', events' := states + [Next(states[|events|], t, a)], events + [e];
    forall i | 0 <= i < |events'| ensures Enacts(states'[i], events'[i], states'[i + 1]) {
      if i < |events| { assert Enacts(states[i], events[i], states[i + 1]); }
    }
  }

  lemma AShellRuns() returns (states: seq<Sys>, events: seq<Event>)
    ensures Run(states, events)
    ensures states[|events|] ==
      Sys(Running, Some(false), None, None, [InRun, Idle], 0, {}, Some(0), None, false, false)
  {
    states, events := [Sys(Created, None, None, None, [Idle, Idle], 0, {}, None, None, false, false)], [];
    states, events := OneMore(states, events, 0, Start(BeginRun));
    states, events := OneMore(states, events, 0, Go(true));
  }

  lemma AnEditorIsPublished() returns (states: seq<Sys>, events: seq<Event>)
    ensures Run(states, events)
    ensures states[|events|] ==
      Sys(Running, Some(false), None, Some(0), [InRun, Idle], 1, {}, Some(0), None, false, false)
  {
    states, events := AShellRuns();
    states, events := OneMore(states, events, 1, Start(NewEditor));
    states, events := OneMore(states, events, 1, Go(true));
    states, events := OneMore(states, events, 1, Go(true));
  }

  lemma TheCloseWaits() returns (states: seq<Sys>, events: seq<Event>)
    ensures Run(states, events)
    ensures states[|events|] ==
      Sys(Closed, Some(false), Some(false), Some(0), [InRun, WaitRun], 1, {}, Some(0), Some(1), false, false)
  {
    states, events := AnEditorIsPublished();
    states, events := OneMore(states, events, 1, Start(BeginClose));
    states, events := OneMore(states, events, 1, Go(true));
  }

  lemma TheRunEnds() returns (states: seq<Sys>, events: seq<Event>)
    ensures Run(states, events)
    ensures states[|events|] ==
      Sys(Closed, Some(true), Some(false), None, [Idle, WaitRun], 1, {0}, Some(0), Some(1), false, false)
  {
    states, events := TheCloseWaits();
    states, events := OneMore(states, events, 0, Go(true));
    states, events := OneMore(states, events, 0, Go(true));
    states, events := OneMore(states, events, 0, Go(true));
    states, events := OneMore(states, events, 0, Go(true));
  }

  /** A shell that runs, publishes an editor and is closed comes to rest with the editor closed. */
  lemma AWholeLife() returns (states: seq<Sys>, events: seq<Event>)
    ensures Run(states, events)
    ensures var s := states[|events|];
      && s.state == Closed && s.closeDone == Some(true) && s.closer.Some? && s.created == 1 && s.closedEditors == {0}
      && forall t :: 0 <= t < |s.pcs| ==> s.pcs[t] == Idle
  {
    states, events := TheRunEnds();
    states, events := OneMore(states, events, 1, Go(true));
    states, events := OneMore(states, events, 1, Go(true));
    states, events := OneMore(states, events, 1, Go(true));
  }

  // ---------- The critical sections, updating the shell in place ----------

  /** The lifecycle with a single goroutine at `pc`, to name the step a critical section performs. */
  function Solo(state: State, runDone: Option<bool>, closeDone: Option<bool>, line: Option<nat>, pc: Pc): Sys {
    Sys(state, runDone, closeDone, line, [pc], 0, {}, None, None, false, false)
  }

  /** The shell and its goroutine `t` have changed as a single goroutine changes them, and nobody else has moved. */
  predicate MovedAlike(one: Sys, s: Sys, whole: Sys, t: nat)
    requires t < |s.pcs|
  {
    && whole.state == one.state && whole.runDone == one.runDone && whole.closeDone == one.closeDone
    && whole.line == one.line && |one.pcs| == 1 && whole.pcs == s.pcs[t := one.pcs[0]]
  }

  function Alone(s: Sys, pc: Pc): Sys {
    Solo(s.state, s.runDone, s.closeDone, s.line, pc)
  }

  /**
   A step of goroutine `t` in the whole lifecycle does to the shell, and to where `t` goes on, what the same step of a
   single goroutine does; only the number of a newly made editor comes from elsewhere. Nobody else moves.
   */
  lemma StepsAreLocal(s: Sys, t: nat, ok: bool)
    requires Enabled(s, t, Go(ok)) && !s.pcs[t].NewEditor?
    ensures Enabled(Alone(s, s.pcs[t]), 0, Go(ok))
    ensures MovedAlike(Next(Alone(s, s.pcs[t]), 0, Go(ok)), s, Next(s, t, Go(ok)), t)
  {
    var pc := s.pcs[t];
    if pc.BeginRun? || pc.InRun? || pc.EndRun? {
      RunIsLocal(s, t, Alone(s, pc));
    } else if pc.BeginClose? || pc.WaitRun? || pc.FinishClose? || pc.AwaitClose? {
      CloseIsLocal(s, t, Alone(s, pc));
    } else {
      EditorIsLocal(s, t, ok, Alone(s, pc));
    }
  }

  lemma RunIsLocal(s: Sys, t: nat, one: Sys)
    requires t < |s.pcs| && one == Alone(s, s.pcs[t])
    ensures MovedAlike(StepRun(one, 0), s, StepRun(s, t), t)
  {
    assert one.pcs[0] == s.pcs[t];
  }

  lemma CloseIsLocal(s: Sys, t: nat, one: Sys)
    requires t < |s.pcs| && one == Alone(s, s.pcs[t])
    ensures MovedAlike(StepClose(one, 0), s, StepClose(s, t), t)
  {
    assert one.pcs[0] == s.pcs[t];
  }

  lemma EditorIsLocal(s: Sys, t: nat, ok: bool, one: Sys)
    requires t < |s.pcs| && one == Alone(s, s.pcs[t]) && !s.pcs[t].NewEditor?
    ensures MovedAlike(StepEditor(one, 0, ok), s, StepEditor(s, t, ok), t)
  {
    assert one.pcs[0] == s.pcs[t];
  }

  class Shell {
    var state: State
    var runDone: Option<bool>
    var closeDone: Option<bool>
    var line: Option<nat>

    function View(pc: Pc): Sys
      reads this
    {
      Solo(state, runDone, closeDone, line, pc)
    }

    /** The shell is as step `s` left it, and the goroutine goes on at `next`. */
    predicate Reached(s: Sys, next: Pc)
      reads this
    {
      state == s.state && runDone == s.runDone && closeDone == s.closeDone && line == s.line && s.pcs == [next]
    }

    method BeginRunSection() returns (next: Pc)
      modifies this
      ensures Reached(StepRun(old(View(BeginRun)), 0), next)
    {
      match state {
        case Created =>
          state := Running;
          runDone := Some(false);
          next := InRun;
        case _ =>
          next := Idle;
      }
    }

    method EndRunSection() returns (next: Pc)
      modifies this
      ensures Reached(StepRun(old(View(EndRun)), 0), next)
    {
      if state == Running {
        state := Stopped;
      }
      runDone := Some(true);
      next := Idle;
    }

    method BeginCloseSection() returns (next: Pc)
      modifies this
      ensures Reached(StepClose(old(View(BeginClose)), 0), next)
    {
      if state == Closed {
        return AwaitClose;
      }
      state := Closed;
      closeDone := Some(false);
      return WaitRun;
    }

    method FinishCloseSection() returns (next: Pc)
      modifies this
      ensures Reached(StepClose(old(View(FinishClose)), 0), next)
    {
      closeDone := Some(true);
      next := Idle;
    }

    /** resetLineEditor publishes its editor only while the shell runs and `live` says its context has not expired. */
    method PublishEditorSection(editor: nat, live: bool) returns (next: Pc)
      modifies this
      ensures Reached(StepEditor(old(View(PublishEditor(editor))), 0, live), next)
    {
      if state != Running || !live {
        return CloseEditor(editor, Return);
      }
      var replaced := line;
      line := Some(editor);
      next := if replaced.Some? then CloseEditor(replaced.value, Return) else Idle;
    }

    method CloseLineEditorSection(after: Then) returns (next: Pc)
      modifies this
      ensures Reached(StepEditor(old(View(TakeLine(after))), 0, true), next)
    {
      var editor := line;
      line := None;
      next := if editor.Some? then CloseEditor(editor.value, after) else After(after);
    }
  }
}
