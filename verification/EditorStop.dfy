/**
 The end of a prompt: once the stop signal has been given the pump exits, so the prompt that waits for it returns.
 */
module EditorStop {
  import opened Prelude
  import opened EditorDecoder
  import opened EditorInput

  /** How far the pump is from its exit when it sees the stop signal at its next check. */
  function PumpRank(pump: Pump): nat {
    match pump
    case Exited => 0
    case Draining => 1
    case Polling => 2
    case Waiting => 3
    case Delivering(_) => 3
    case DeliveringEnd => 3
    case Holding(_) => 4
    case HoldingEnd => 4
    case Asking => 5
  }

  function Left(s: Sys): nat {
    PumpRank(s.pump) + (if s.reader.reading then 1 else 0) + (if s.reader.held != [] then 1 else 0)
  }

  /** The prompt's stop function waits for the pump. */
  predicate Stopping(s: Sys) {
    s.program.stopped && !s.pump.Exited?
  }

  /** After the stop signal every step brings the pump nearer to its exit, except that another chunk may be read. */
  predicate Nearer(s: Sys, a: Act, s': Sys) {
    s'.program.stopped && if a.Read? then Left(s') == Left(s) + 1 else Left(s') < Left(s)
  }

  lemma StepIsNearer(p: Parser, s: Sys, a: Act)
    requires Sound(p) && Protocol(s.pump, s.reader, s.program) && Stopping(s) && Enabled(s, a, true)
    ensures Nearer(s, a, After(p, s, a, true))
  {
    if a.Poll? {
      PollIsNearer(p, s);
    } else if s.pump.Delivering? || s.pump.DeliveringEnd? {
      DeliveryIsNearer(p, s, a);
    }
  }

  lemma PollIsNearer(p: Parser, s: Sys)
    requires Sound(p) && s.pump.Asking? && s.program.stopped
    ensures Nearer(s, Poll, Polled(p, s))
  {
  }

  lemma DeliveryIsNearer(p: Parser, s: Sys, a: Act)
    requires Sound(p) && Protocol(s.pump, s.reader, s.program) && Stopping(s) && Enabled(s, a, true)
    requires s.pump.Delivering? || s.pump.DeliveringEnd?
    ensures Nearer(s, a, After(p, s, a, true))
  {
  }

  function Reads(acts: seq<Act>, i: nat, j: nat): nat
    requires i <= j <= |acts|
  {
    if i == j then 0 else Reads(acts, i, j - 1) + if acts[j - 1].Read? then 1 else 0
  }

  lemma {:induction false} StepsAreCounted(states: seq<Sys>, acts: seq<Act>, i: nat, j: nat)
    requires i <= j <= |acts| < |states|
    requires forall k :: i <= k < j ==> Nearer(states[k], acts[k], states[k + 1])
    ensures Left(states[j]) + (j - i) <= Left(states[i]) + 2 * Reads(acts, i, j)
    decreases j - i
  {
    if i < j {
      StepsAreCounted(states, acts, i, j - 1);
      assert Nearer(states[j - 1], acts[j - 1], states[j]);
    }
  }

  /** The stop function has been called and still waits, up to the state before `j`. */
  ghost predicate StopWaits(states: seq<Sys>, i: nat, j: nat) {
    && i <= j < |states|
    && states[i].program.stopped
    && forall k :: i <= k < j ==> !states[k].pump.Exited?
  }

  lemma SignalStays(p: Parser, s: Sys, a: Act)
    requires Sound(p) && Enabled(s, a, true) && Stopping(s)
    ensures After(p, s, a, true).program.stopped
  {
  }

  lemma {:induction false} StaysStopped(p: Parser, states: seq<Sys>, acts: seq<Act>, i: nat, j: nat)
    requires Sound(p) && Run(p, states, acts, true) && StopWaits(states, i, j)
    ensures states[j].program.stopped
    decreases j - i
  {
    if i < j {
      StaysStopped(p, states, acts, i, j - 1);
      SignalStays(p, states[j - 1], acts[j - 1]);
    }
  }

  lemma NextIsNearer(p: Parser, states: seq<Sys>, acts: seq<Act>, k: nat)
    requires Sound(p) && Run(p, states, acts, true) && k < |acts| && Stopping(states[k])
    ensures Nearer(states[k], acts[k], states[k + 1])
  {
    InvAt(p, states, acts, k);
    StepIsNearer(p, states[k], acts[k]);
  }

  /**
   On every run, as long as a stop function waits, all steps are counted: at most seven, and two more for each chunk
   still read.
   */
  lemma StopIsBounded(p: Parser, states: seq<Sys>, acts: seq<Act>, i: nat, j: nat)
    requires Sound(p) && Run(p, states, acts, true) && StopWaits(states, i, j)
    ensures j - i <= 7 + 2 * Reads(acts, i, j)
  {
    forall k | i <= k < j ensures Nearer(states[k], acts[k], states[k + 1]) {
      StaysStopped(p, states, acts, i, k);
      NextIsNearer(p, states, acts, k);
    }
    StepsAreCounted(states, acts, i, j);
  }

  /** A step that can be taken without any further input while the stop function waits. */
  function WayOut(s: Sys): Act
    requires Stopping(s)
  {
    match s.pump
    case Polling => SeeStop
    case Waiting => SeeStop
    case Asking => Poll
    case Holding(event) => if Keyboard(event) then Refuse else Post
    case HoldingEnd => Refuse
    case Delivering(_) => if s.program.receipt.Some? then TakeReceipt else GiveUp
    case DeliveringEnd => EndDelivered
    case _ => if s.reader.held != [] then TakeChunk else if s.reader.reading then StopReading(false) else Drained
  }

  /** The stop function cannot hang: whatever the moment of the signal, the pump can step, and no input is needed. */
  lemma StopNeverHangs(p: Parser, states: seq<Sys>, acts: seq<Act>, i: nat)
    requires Sound(p) && Run(p, states, acts, true) && i < |states| && Stopping(states[i])
    ensures Enabled(states[i], WayOut(states[i]), true) && !WayOut(states[i]).Read?
    ensures Left(After(p, states[i], WayOut(states[i]), true)) < Left(states[i])
  {
    InvAt(p, states, acts, i);
    StepIsNearer(p, states[i], WayOut(states[i]));
  }
}
