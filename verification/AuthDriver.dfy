/**
 The callback that drives authentication: candidates are offered one at a time, again from the first one after every
 partial success, and the trace that remembers which methods the server accepted.
 */
module AuthDriver {
  import opened Prelude

  /** `hook` says whether the candidate wants to be told of its rejection. */
  datatype Candidate = Candidate(protocol: string, hook: bool)

  /**
   One call of the callback: what the server permits and has accepted so far, whether a secret provider has failed for
   good, which candidates admit the call, and at which candidates the host key is found to have changed.
   */
  datatype Call = Call(
    allowed: set<string>, accepted: seq<string>, terminal: bool, admitted: set<nat>, changed: set<nat>)

  datatype Answer = Terminal | Offer(candidate: nat) | Exhausted | Blocked | NoneAvailable

  /** The variables of the closure. */
  datatype State = State(next: nat, lastStage: nat, selected: bool, blocked: bool, active: Option<nat>)

  const START := State(0, 0, false, false, None)

  /** A call with its answer, the candidate reported rejected, the stage, and the candidates looked at. */
  datatype Round = Round(call: Call, answer: Answer, rejected: Option<nat>, stage: nat, from: nat, to: nat)

  predicate Permitted(cands: seq<Candidate>, call: Call, k: nat)
    requires k < |cands|
  {
    cands[k].protocol in call.allowed && k in call.admitted
  }

  /** checkProtocolRuntime. */
  predicate PolicyRefuses(cands: seq<Candidate>, call: Call, k: nat)
    requires k < |cands|
  {
    (cands[k].protocol == "password" || cands[k].protocol == "keyboard-interactive") && k in call.changed
  }

  predicate Eligible(cands: seq<Candidate>, call: Call, k: nat)
    requires k < |cands|
  {
    Permitted(cands, call, k) && !PolicyRefuses(cands, call, k)
  }

  // ---------- The driver ----------

  class Driver {
    const candidates: seq<Candidate>
    var next: nat
    var lastStage: nat
    var selected: bool
    var blocked: bool
    var active: Option<nat>

    function View(): State
      reads this
    {
      State(next, lastStage, selected, blocked, active)
    }

    constructor (candidates: seq<Candidate>)
      ensures this.candidates == candidates && View() == START && Valid()
    {
      this.candidates := candidates;
      next, lastStage, selected, blocked, active := 0, 0, false, false, None;
    }

    ghost predicate Valid()
      reads this
    {
      next <= |candidates| && (active.Some? ==> active.value < |candidates|)
    }

    method Callback(call: Call) returns (answer: Answer, rejected: Option<nat>)
      requires Valid()
      modifies this
      ensures Valid()
      ensures Step(candidates, old(View()),
        Round(call, answer, rejected, lastStage, FirstLook(old(View()), call), next), View())
    {
      rejected := None;
      if call.terminal {
        return Terminal, None;
      }
      var stage := |call.accepted|;
      if stage > lastStage {
        lastStage := stage;
        next := 0;
        selected := false;
        blocked := false;
        active := None;
      } else if active != None {
        if candidates[active.value].hook {
          rejected := active;
        }
        active := None;
      }
      answer := SearchOn(call, rejected);
    }

    /** The search itself, from the first candidate not yet looked at. */
    method SearchOn(call: Call, ghost rejected: Option<nat>) returns (answer: Answer)
      requires Valid() && active == None
      modifies this`next, this`selected, this`blocked, this`active
      ensures Valid()
      ensures Search(
        candidates, Round(call, answer, rejected, lastStage, old(next), next), old(selected), old(blocked), View())
    {
      ghost var from, wasBlocked, wasSelected := next, blocked, selected;
      while next < |candidates|
        invariant from <= next <= |candidates|
        invariant selected == wasSelected && active == None
        invariant forall k :: from <= k < next ==> !Eligible(candidates, call, k)
        invariant blocked <==> wasBlocked || AnyStopped(candidates, call, from, next)
      {
        AnyStoppedNext(candidates, call, from, next);
        var k := next;
        next := next + 1;
        if candidates[k].protocol !in call.allowed || k !in call.admitted {
          continue;
        }
        if (candidates[k].protocol == "password" || candidates[k].protocol == "keyboard-interactive") &&
           k in call.changed {
          blocked := true;
          continue;
        }
        assert !Stopped(candidates, call, k);
        selected := true;
        active := Some(k);
        return Offer(k);
      }
      if !selected {
        return if blocked then Blocked else NoneAvailable;
      }
      return Exhausted;
    }
  }

  /** A candidate that only the runtime policy stands against. */
  predicate Stopped(cands: seq<Candidate>, call: Call, k: nat) {
    k < |cands| && Permitted(cands, call, k) && PolicyRefuses(cands, call, k)
  }

  ghost predicate AnyStopped(cands: seq<Candidate>, call: Call, from: nat, to: nat) {
    exists k :: from <= k < to && Stopped(cands, call, k)
  }

  lemma AnyStoppedNext(cands: seq<Candidate>, call: Call, from: nat, to: nat)
    requires from <= to
    ensures AnyStopped(cands, call, from, to + 1) <==> AnyStopped(cands, call, from, to) || Stopped(cands, call, to)
  {
  }

  predicate NewStage(s: State, call: Call) {
    !call.terminal && |call.accepted| > s.lastStage
  }

  /** Where the search for a candidate starts. */
  function FirstLook(s: State, call: Call): nat {
    if NewStage(s, call) then 0 else s.next
  }

  /** What one call of the driver does. */
  ghost predicate Step(cands: seq<Candidate>, s: State, r: Round, s': State) {
    && r.from == FirstLook(s, r.call) && r.to == s'.next && r.stage == s'.lastStage
    && s'.lastStage == (if NewStage(s, r.call) then |r.call.accepted| else s.lastStage)
    && if r.call.terminal then r.answer == Terminal && r.rejected == None && s' == s
       else
         && r.rejected == (
              if !NewStage(s, r.call) && s.active.Some? && s.active.value < |cands| && cands[s.active.value].hook
              then s.active else None)
         && Search(cands, r, !NewStage(s, r.call) && s.selected, !NewStage(s, r.call) && s.blocked, s')
  }

  /** The first eligible candidate is offered; if there is none the answer says what was found in this stage. */
  ghost predicate Search(cands: seq<Candidate>, r: Round, selected: bool, blocked: bool, s': State) {
    && r.from <= r.to
    && s'.blocked == (blocked || AnyStopped(cands, r.call, r.from, r.to))
    && match r.answer
       case Offer(k) =>
         && r.from <= k && r.to == k + 1 <= |cands| && Eligible(cands, r.call, k)
         && (forall j :: r.from <= j < k ==> !Eligible(cands, r.call, j))
         && s'.selected && s'.active == Some(k)
       case Terminal => false
       case _ =>
         && r.to == |cands|
         && (forall j :: r.from <= j < |cands| ==> !Eligible(cands, r.call, j))
         && s'.selected == selected && s'.active == None
         && r.answer == if selected then Exhausted else if s'.blocked then Blocked else NoneAvailable
  }

  // ---------- Runs ----------

  ghost predicate Run(cands: seq<Candidate>, states: seq<State>, log: seq<Round>) {
    && |states| == |log| + 1
    && states[0] == START
    && forall i {:trigger log[i]} :: 0 <= i < |log| ==> Step(cands, states[i], log[i], states[i + 1])
  }

  /** Within the current stage the rounds look at consecutive stretches of the candidates, up to `next`. */
  ghost predicate Inv(cands: seq<Candidate>, s: State, log: seq<Round>) {
    && s.next <= |cands|
    && (forall i :: 0 <= i < |log| ==> log[i].stage <= s.lastStage)
    && (forall i :: 0 <= i < |log| && log[i].stage == s.lastStage ==> log[i].to <= s.next)
    && (forall k :: 0 <= k < s.next ==> LookedAt(cands, log, s.lastStage, k))
    && (s.selected <==> OfferedIn(log, s.lastStage))
    && (s.blocked <==> StoppedIn(cands, log, s.lastStage))
    && (s.active.Some? ==> Outstanding(log, s.lastStage, s.active.value) && s.active.value < |cands|)
  }

  /** In some round of the stage the candidate was looked at, and offered unless it was not eligible at that call. */
  ghost predicate LookedAt(cands: seq<Candidate>, log: seq<Round>, stage: nat, k: nat) {
    exists i :: 0 <= i < |log| && LooksAt(cands, log[i], stage, k)
  }

  predicate LooksAt(cands: seq<Candidate>, r: Round, stage: nat, k: nat) {
    && r.stage == stage && r.from <= k < r.to && k < |cands| && r.answer != Terminal
    && (r.answer == Offer(k) <==> Eligible(cands, r.call, k))
  }

  predicate Offers(r: Round, stage: nat) {
    r.stage == stage && r.answer.Offer?
  }

  ghost predicate OfferedIn(log: seq<Round>, stage: nat) {
    exists i :: 0 <= i < |log| && Offers(log[i], stage)
  }

  ghost predicate StoppedIn(cands: seq<Candidate>, log: seq<Round>, stage: nat) {
    exists i :: 0 <= i < |log| && StopsAt(cands, log[i], stage)
  }

  ghost predicate StopsAt(cands: seq<Candidate>, r: Round, stage: nat) {
    r.stage == stage && r.answer != Terminal && AnyStopped(cands, r.call, r.from, r.to)
  }

  /** The candidate was the last one offered, in this stage, and only failed calls followed. */
  ghost predicate Outstanding(log: seq<Round>, stage: nat, k: nat) {
    exists i :: 0 <= i < |log| && LastOffer(log, i, stage, k)
  }

  predicate LastOffer(log: seq<Round>, i: nat, stage: nat, k: nat)
    requires i < |log|
  {
    log[i].answer == Offer(k) && log[i].stage == stage && forall j :: i < j < |log| ==> log[j].answer == Terminal
  }

  lemma {:induction false} RunInv(cands: seq<Candidate>, states: seq<State>, log: seq<Round>)
    requires Run(cands, states, log)
    ensures Inv(cands, states[|log|], log)
    decreases |log|
  {
    if log != [] {
      var n := |log| - 1;
      RunInv(cands, states[..n + 1], log[..n]);
      assert states[..n + 1][n] == states[n];
      StepKeeps(cands, states[n], log[..n], log[n], states[n + 1]);
      assert log == log[..n] + [log[n]];
    }
  }

  /** What one more round adds to what the log shows of a stage. */
  lemma LogGrows(cands: seq<Candidate>, log: seq<Round>, r: Round, stage: nat)
    ensures OfferedIn(log + [r], stage) <==> OfferedIn(log, stage) || Offers(r, stage)
    ensures StoppedIn(cands, log + [r], stage) <==> StoppedIn(cands, log, stage) || StopsAt(cands, r, stage)
  {
    var log' := log + [r];
    assert log'[|log|] == r;
    forall i | 0 <= i < |log| ensures log'[i] == log[i] {}
    if OfferedIn(log, stage) {
      var i :| 0 <= i < |log| && Offers(log[i], stage);
      assert Offers(log'[i], stage);
    }
    if StoppedIn(cands, log, stage) {
      var i :| 0 <= i < |log| && StopsAt(cands, log[i], stage);
      assert StopsAt(cands, log'[i], stage);
    }
  }

  lemma LookedAtGrows(cands: seq<Candidate>, log: seq<Round>, r: Round, stage: nat, k: nat)
    ensures LookedAt(cands, log + [r], stage, k) <==> LookedAt(cands, log, stage, k) || LooksAt(cands, r, stage, k)
  {
    var log' := log + [r];
    assert log'[|log|] == r;
    forall i | 0 <= i < |log| ensures log'[i] == log[i] {}
    if LookedAt(cands, log, stage, k) {
      var i :| 0 <= i < |log| && LooksAt(cands, log[i], stage, k);
      assert LooksAt(cands, log'[i], stage, k);
    }
  }

  lemma OutstandingGrows(log: seq<Round>, r: Round, stage: nat, k: nat)
    ensures r.answer == Offer(k) && r.stage == stage ==> Outstanding(log + [r], stage, k)
    ensures Outstanding(log, stage, k) && r.answer == Terminal ==> Outstanding(log + [r], stage, k)
  {
    var log' := log + [r];
    if r.answer == Offer(k) && r.stage == stage {
      assert LastOffer(log', |log|, stage, k);
    }
    if Outstanding(log, stage, k) && r.answer == Terminal {
      var i :| 0 <= i < |log| && LastOffer(log, i, stage, k);
      assert LastOffer(log', i, stage, k);
    }
  }

  lemma TerminalKeeps(cands: seq<Candidate>, s: State, log: seq<Round>, r: Round)
    requires Inv(cands, s, log) && Step(cands, s, r, s) && r.call.terminal
    ensures Inv(cands, s, log + [r])
  {
    LogGrows(cands, log, r, s.lastStage);
    forall k | 0 <= k < s.next ensures LookedAt(cands, log + [r], s.lastStage, k) {
      LookedAtGrows(cands, log, r, s.lastStage, k);
    }
    if s.active.Some? { OutstandingGrows(log, r, s.lastStage, s.active.value); }
  }

  lemma SearchKeeps(cands: seq<Candidate>, s: State, log: seq<Round>, r: Round, s': State)
    requires Inv(cands, s, log) && Step(cands, s, r, s') && !r.call.terminal
    ensures Inv(cands, s', log + [r])
  {
    LogGrows(cands, log, r, s'.lastStage);
    forall k | 0 <= k < s'.next ensures LookedAt(cands, log + [r], s'.lastStage, k) {
      LookedAtGrows(cands, log, r, s'.lastStage, k);
    }
    if s'.active.Some? { OutstandingGrows(log, r, s'.lastStage, s'.active.value); }
  }

  lemma StepKeeps(cands: seq<Candidate>, s: State, log: seq<Round>, r: Round, s': State)
    requires Inv(cands, s, log) && Step(cands, s, r, s')
    ensures Inv(cands, s', log + [r])
  {
    if r.call.terminal {
      TerminalKeeps(cands, s, log, r);
    } else {
      SearchKeeps(cands, s, log, r, s');
    }
  }

  // ---------- What the driver guarantees, over every run ----------

  lemma StateOf(cands: seq<Candidate>, states: seq<State>, log: seq<Round>, n: nat)
    requires Run(cands, states, log) && n <= |log|
    ensures Run(cands, states[..n + 1], log[..n]) && Inv(cands, states[n], log[..n])
  {
    RunInv(cands, states[..n + 1], log[..n]);
  }

  /** Stages only go forward. */
  lemma {:induction false} StagesGrow(cands: seq<Candidate>, states: seq<State>, log: seq<Round>, i: nat, j: nat)
    requires Run(cands, states, log) && i <= j < |states|
    ensures states[i].lastStage <= states[j].lastStage
    decreases j - i
  {
    if i < j {
      StagesGrow(cands, states, log, i, j - 1);
      assert Step(cands, states[j - 1], log[j - 1], states[j]);
    }
  }

  predicate Accepts(r: Round, n: nat) {
    !r.call.terminal && |r.call.accepted| == n
  }

  /** The stage is the largest number of methods that any call which has not failed has shown as accepted. */
  lemma {:induction false} StageCountsAccepted(
    cands: seq<Candidate>, states: seq<State>, log: seq<Round>, n: nat)
    requires Run(cands, states, log) && n <= |log|
    ensures forall i :: 0 <= i < n && !log[i].call.terminal ==> |log[i].call.accepted| <= states[n].lastStage
    ensures states[n].lastStage > 0 ==> exists i :: 0 <= i < n && Accepts(log[i], states[n].lastStage)
  {
    if n > 0 {
      StageCountsAccepted(cands, states, log, n - 1);
      assert Step(cands, states[n - 1], log[n - 1], states[n]);
      if NewStage(states[n - 1], log[n - 1].call) { assert Accepts(log[n - 1], states[n].lastStage); }
    }
  }

  /** Every offer is of the first candidate that the server and the policy permit at that call and not looked at yet. */
  lemma OffersArePermitted(cands: seq<Candidate>, states: seq<State>, log: seq<Round>, i: nat)
    requires Run(cands, states, log) && i < |log| && log[i].answer.Offer?
    ensures var r := log[i]; var k := r.answer.candidate;
      && k < |cands| && Eligible(cands, r.call, k) && !r.call.terminal
      && forall j :: FirstLook(states[i], r.call) <= j < k ==> !Eligible(cands, r.call, j)
  {
    assert Step(cands, states[i], log[i], states[i + 1]);
  }

  /**
   A candidate whose turn it is at a call is passed over for one of three reasons only: the server does not allow its
   protocol, the candidate does not admit the call, or a secret would be typed towards a host whose key has changed.
   */
  lemma PassedOverForAReason(cands: seq<Candidate>, states: seq<State>, log: seq<Round>, i: nat, k: nat)
    requires Run(cands, states, log) && i < |log| && !log[i].call.terminal && log[i].from <= k < log[i].to
    ensures k < |cands|
    ensures var call, protocol := log[i].call, cands[k].protocol;
      log[i].answer != Offer(k) <==>
        || protocol !in call.allowed || k !in call.admitted
        || ((protocol == "password" || protocol == "keyboard-interactive") && k in call.changed)
  {
    assert Step(cands, states[i], log[i], states[i + 1]);
    assert log[i].answer == Offer(k) <==> Eligible(cands, log[i].call, k);
  }

  /** No password is offered to a host whose key is found to have changed. */
  lemma NoSecretForChangedHost(cands: seq<Candidate>, states: seq<State>, log: seq<Round>, i: nat, k: nat)
    requires Run(cands, states, log) && i < |log| && log[i].answer == Offer(k) && k in log[i].call.changed
    ensures k < |cands| && cands[k].protocol != "password" && cands[k].protocol != "keyboard-interactive"
  {
    assert Step(cands, states[i], log[i], states[i + 1]);
  }

  /** Within one stage the offers are strictly increasing: no candidate is offered twice, and the order is kept. */
  lemma OffersIncrease(cands: seq<Candidate>, states: seq<State>, log: seq<Round>, i: nat, j: nat)
    requires Run(cands, states, log) && i < j < |log|
    requires log[i].answer.Offer? && log[j].answer.Offer? && log[i].stage == log[j].stage
    ensures log[i].answer.candidate < log[j].answer.candidate
  {
    StateOf(cands, states, log, j);
    assert Step(cands, states[j], log[j], states[j + 1]);
    assert Step(cands, states[i], log[i], states[i + 1]);
    StagesGrow(cands, states, log, i + 1, j);
    assert log[..j][i] == log[i];
  }

  /**
   When the driver gives up, every candidate has been looked at in this stage, and was offered unless the server or the
   policy forbade it at that call.
   */
  lemma GivesUpOnlyWhenExhausted(cands: seq<Candidate>, states: seq<State>, log: seq<Round>, j: nat, k: nat)
    requires Run(cands, states, log) && j < |log| && k < |cands|
    requires log[j].answer.Exhausted? || log[j].answer.Blocked? || log[j].answer.NoneAvailable?
    ensures LookedAt(cands, log[..j + 1], log[j].stage, k)
  {
    StateOf(cands, states, log, j + 1);
    assert Step(cands, states[j], log[j], states[j + 1]);
  }

  /** Which way it gives up tells what happened in this stage. */
  lemma GivingUpTellsWhy(cands: seq<Candidate>, states: seq<State>, log: seq<Round>, j: nat)
    requires Run(cands, states, log) && j < |log| && !log[j].call.terminal && !log[j].answer.Offer?
    ensures var offered := OfferedIn(log[..j + 1], log[j].stage);
      && (log[j].answer == Exhausted <==> offered)
      && (log[j].answer == Blocked <==> !offered && StoppedIn(cands, log[..j + 1], log[j].stage))
      && (log[j].answer == NoneAvailable <==> !offered && !StoppedIn(cands, log[..j + 1], log[j].stage))
  {
    StateOf(cands, states, log, j + 1);
    assert Step(cands, states[j], log[j], states[j + 1]);
  }

  /**
   A rejection is reported only for the candidate offered last, in the same stage, with nothing but failed calls since;
   so at most once for each offer, and never when the server has just accepted something.
   */
  lemma RejectionsAnswerOffers(cands: seq<Candidate>, states: seq<State>, log: seq<Round>, j: nat)
    requires Run(cands, states, log) && j < |log| && log[j].rejected.Some?
    ensures !NewStage(states[j], log[j].call)
    ensures exists i :: 0 <= i < j && LastOffer(log[..j], i, log[j].stage, log[j].rejected.value)
  {
    StateOf(cands, states, log, j);
    assert Step(cands, states[j], log[j], states[j + 1]);
  }

  /**
   And it is always reported, if the candidate wants to know: the next call that has not failed and finds nothing more
   accepted than before rejects the candidate offered last.
   */
  lemma RejectionsAreReported(cands: seq<Candidate>, states: seq<State>, log: seq<Round>, i: nat, j: nat, k: nat)
    requires Run(cands, states, log) && i < j < |log| && log[i].answer == Offer(k) && k < |cands|
    requires forall h :: i < h < j ==> log[h].call.terminal
    requires !log[j].call.terminal && |log[j].call.accepted| <= log[i].stage
    ensures log[j].rejected == if cands[k].hook then Some(k) else None
  {
    StillActive(cands, states, log, i, j, k);
    assert Step(cands, states[j], log[j], states[j + 1]);
  }

  lemma {:induction false} StillActive(
    cands: seq<Candidate>, states: seq<State>, log: seq<Round>, i: nat, j: nat, k: nat)
    requires Run(cands, states, log) && i < j <= |log| && log[i].answer == Offer(k)
    requires forall h :: i < h < j ==> log[h].call.terminal
    ensures states[j].active == Some(k) && states[j].lastStage == log[i].stage
    decreases j
  {
    if j == i + 1 {
      assert Step(cands, states[i], log[i], states[j]);
    } else {
      StillActive(cands, states, log, i, j - 1, k);
      assert Step(cands, states[j - 1], log[j - 1], states[j]);
    }
  }

  lemma OneRejectionPerOffer(cands: seq<Candidate>, states: seq<State>, log: seq<Round>, i: nat, j: nat, j': nat)
    requires Run(cands, states, log) && i < j < j' < |log|
    requires log[j].rejected.Some? && log[j'].rejected.Some?
    requires LastOffer(log[..j], i, log[j].stage, log[j].rejected.value)
    ensures !LastOffer(log[..j'], i, log[j'].stage, log[j'].rejected.value)
  {
    assert Step(cands, states[j], log[j], states[j + 1]);
    assert log[..j'][j] == log[j];
  }

  function OfferCount(log: seq<Round>): nat {
    if log == [] then 0 else OfferCount(log[..|log| - 1]) + if log[|log| - 1].answer.Offer? then 1 else 0
  }

  /** The number of stages is bounded by the number of methods the server has accepted. */
  lemma {:induction false} OffersAreBounded(cands: seq<Candidate>, states: seq<State>, log: seq<Round>)
    requires Run(cands, states, log)
    ensures var s := states[|log|];
      OfferCount(log) <= |cands| * s.lastStage + s.next && OfferCount(log) <= |cands| * (s.lastStage + 1)
    decreases |log|
  {
    RunInv(cands, states, log);
    if log != [] {
      var n := |log| - 1;
      OffersAreBounded(cands, states[..n + 1], log[..n]);
      assert states[..n + 1][n] == states[n];
      assert Step(cands, states[n], log[n], states[n + 1]);
      CountStep(cands, OfferCount(log[..n]), states[n], log[n], states[n + 1]);
    }
    Distribute(|cands|, states[|log|].lastStage, 1);
  }

  lemma CountStep(cands: seq<Candidate>, count: nat, s: State, r: Round, s': State)
    requires Step(cands, s, r, s')
    requires count <= |cands| * s.lastStage + s.next && count <= |cands| * (s.lastStage + 1)
    ensures count + (if r.answer.Offer? then 1 else 0) <= |cands| * s'.lastStage + s'.next
  {
    if NewStage(s, r.call) {
      MoreStages(|cands|, s.lastStage + 1, s'.lastStage);
    }
  }

  lemma MoreStages(n: nat, a: nat, b: nat)
    requires a <= b
    ensures n * a <= n * b
  {
  }

  // ---------- The trace ----------

  /** authenticationTrace around the driver's callback; the driver reports its offers to it. */
  class Trace {
    const driver: Driver
    var callbackSeen: bool
    var chosen: string
    var partial: seq<string>

    constructor (driver: Driver)
      ensures this.driver == driver && !callbackSeen && chosen == "" && partial == []
    {
      this.driver := driver;
      callbackSeen, chosen, partial := false, "", [];
    }

    /** ObserveDiagnostic for an authentication attempt. */
    method ObserveAttempt(protocol: string)
      modifies this`chosen
      ensures chosen == protocol
    {
      chosen := protocol;
    }

    method Callback(call: Call) returns (answer: Answer, rejected: Option<nat>)
      requires driver.Valid()
      modifies this, driver
      ensures driver.Valid()
      ensures Step(driver.candidates, old(driver.View()),
        Round(call, answer, rejected, driver.lastStage, FirstLook(old(driver.View()), call), driver.next),
        driver.View())
      ensures Traces(driver.candidates, Round(call, answer, rejected, 0, 0, 0), callbackSeen, chosen, partial)
    {
      callbackSeen := true;
      chosen := "";
      partial := call.accepted;
      answer, rejected := driver.Callback(call);
      if answer.Offer? {
        ObserveAttempt(driver.candidates[answer.candidate].protocol);
      }
    }

    /** successfulMethods, called once the handshake has succeeded. */
    method SuccessfulMethods() returns (methods: seq<string>)
      ensures !callbackSeen ==> methods == ["none"]
      ensures callbackSeen ==> methods == if chosen == "" then [] else partial + [chosen]
    {
      if !callbackSeen {
        return ["none"];
      }
      if chosen == "" {
        return [];
      }
      return partial + [chosen];
    }
  }

  /** The trace shows the last call: what the server had accepted by then, and the protocol offered, if any. */
  predicate Traces(cands: seq<Candidate>, r: Round, seen: bool, chosen: string, partial: seq<string>) {
    && seen && partial == r.call.accepted
    && (r.answer.Offer? ==> r.answer.candidate < |cands| && chosen == cands[r.answer.candidate].protocol)
    && (!r.answer.Offer? ==> chosen == "")
  }

  /**
   A whole handshake under the trace: the calls of the library in turn. When it then succeeds, the methods reported are
   the ones the server had accepted before the last call, and the one offered last; without any call, "none".
   */
  method Handshake(t: Trace, calls: seq<Call>) returns (answers: seq<Answer>, methods: seq<string>)
    requires t.driver.Valid() && !t.callbackSeen
    modifies t, t.driver
    ensures |answers| == |calls|
    ensures calls == [] ==> methods == ["none"]
    ensures calls != [] && answers[|calls| - 1].Offer? ==>
      var k := answers[|calls| - 1].candidate;
      k < |t.driver.candidates| && t.driver.candidates[k].protocol in calls[|calls| - 1].allowed
      && (t.driver.candidates[k].protocol != "" ==>
            methods == calls[|calls| - 1].accepted + [t.driver.candidates[k].protocol])
    ensures calls != [] && !answers[|calls| - 1].Offer? ==> methods == []
  {
    answers := [];
    var i := 0;
    while i < |calls|
      invariant 0 <= i <= |calls| && |answers| == i && t.driver.Valid()
      invariant i == 0 ==> !t.callbackSeen
      invariant i > 0 ==>
        Traces(
          t.driver.candidates, Round(calls[i - 1], answers[i - 1], None, 0, 0, 0), t.callbackSeen, t.chosen, t.partial)
      invariant i > 0 && answers[i - 1].Offer? ==> Eligible(t.driver.candidates, calls[i - 1], answers[i - 1].candidate)
    {
      var answer, rejected := t.Callback(calls[i]);
      answers := answers + [answer];
      i := i + 1;
    }
    methods := t.SuccessfulMethods();
  }
}
