/**
 When the pump of a prompt gives up waiting, when it says that the input has ended, and what a prompt consumes once its
 model is done, over every run.
 */
module EditorTurns {
  import opened Prelude
  import opened EditorDecoder
  import opened EditorInput

  // ---------- The Escape timeout ----------

  /** The timer has fired, or nothing more can arrive. */
  predicate Expires(s: Sys, a: Act) {
    a.Timeout? || (a.ChunksClosed? && s.reader.eof)
  }

  /** New bytes have arrived while the pump was waiting, or a new prompt has begun. */
  predicate Renews(s: Sys, a: Act) {
    a.NextPrompt? || (a.TakeChunk? && s.pump.Waiting?)
  }

  predicate ExpiredSince(states: seq<Sys>, acts: seq<Act>, i: nat, j: nat)
    requires |acts| <= |states| && i <= |acts|
  {
    j < i && Expires(states[j], acts[j]) && forall k :: j < k < i ==> !Renews(states[k], acts[k])
  }

  /** Something was switched on before `i`, and not off since. */
  predicate OnSince(sets: seq<bool>, resets: seq<bool>, i: nat, j: nat)
    requires |sets| == |resets| && i <= |sets|
  {
    j < i && sets[j] && forall k :: j < k < i ==> !resets[k]
  }

  predicate Switched(on: seq<bool>, sets: seq<bool>, resets: seq<bool>) {
    && |on| == |sets| + 1 == |resets| + 1 && !on[0]
    && forall k {:trigger sets[k]} :: 0 <= k < |sets| ==> on[k + 1] == (sets[k] || (on[k] && !resets[k]))
  }

  lemma {:induction false} OnExactly(on: seq<bool>, sets: seq<bool>, resets: seq<bool>, i: nat)
    requires Switched(on, sets, resets) && i < |on|
    ensures on[i] <==> exists j: nat :: OnSince(sets, resets, i, j)
  {
    if i > 0 {
      OnExactly(on, sets, resets, i - 1);
      if sets[i - 1] {
        assert OnSince(sets, resets, i, i - 1);
      } else if on[i - 1] && !resets[i - 1] {
        var j: nat :| OnSince(sets, resets, i - 1, j);
        assert OnSince(sets, resets, i, j);
      }
      forall j: nat | OnSince(sets, resets, i, j) && j < i - 1
        ensures OnSince(sets, resets, i - 1, j) && !resets[i - 1]
      {
      }
    }
  }

  /** The timeout counts exactly from the last time the timer fired, as long as no bytes have come since. */
  lemma ExpiredExactly(p: Parser, states: seq<Sys>, acts: seq<Act>, careful: bool, i: nat)
    requires Sound(p) && Run(p, states, acts, careful) && i <= |acts|
    ensures states[i].expired <==> exists j: nat :: ExpiredSince(states, acts, i, j)
  {
    var on := seq(|states|, k requires 0 <= k < |states| => states[k].expired);
    var sets := seq(|acts|, k requires 0 <= k < |acts| => k < |states| && Expires(states[k], acts[k]));
    var resets := seq(|acts|, k requires 0 <= k < |acts| => k < |states| && Renews(states[k], acts[k]));
    forall k | 0 <= k < |acts| ensures on[k + 1] == (sets[k] || (on[k] && !resets[k])) {
      ExpiredNext(p, states[k], acts[k], careful);
    }
    OnExactly(on, sets, resets, i);
    SameSince(states, acts, sets, resets, i);
  }

  lemma SameSince(states: seq<Sys>, acts: seq<Act>, sets: seq<bool>, resets: seq<bool>, i: nat)
    requires |sets| == |resets| == |acts| <= |states| && i <= |acts|
    requires forall k :: 0 <= k < |acts| ==> sets[k] == Expires(states[k], acts[k])
    requires forall k :: 0 <= k < |acts| ==> resets[k] == Renews(states[k], acts[k])
    ensures (exists j: nat :: OnSince(sets, resets, i, j)) <==> exists j: nat :: ExpiredSince(states, acts, i, j)
  {
    forall j: nat ensures OnSince(sets, resets, i, j) <==> ExpiredSince(states, acts, i, j) {}
  }

  lemma ExpiredNext(p: Parser, s: Sys, a: Act, careful: bool)
    requires Sound(p) && Enabled(s, a, careful)
    ensures After(p, s, a, careful).expired <==> Expires(s, a) || (s.expired && !Renews(s, a))
  {
  }

  // ---------- The end of the input ----------

  ghost predicate ReaderEnded(acts: seq<Act>, i: nat)
    requires i <= |acts|
  {
    exists j :: 0 <= j < i && acts[j] == StopReading(true)
  }

  /** Nothing more can be made of what is there. */
  ghost predicate Exhausted(p: Parser, s: Sys)
    requires Sound(p)
  {
    Next(p, s.decoder, s.expired) == (s.decoder, None)
  }

  lemma {:induction false} NoneIsStable(p: Parser, d: State, expired: bool)
    requires Sound(p) && Next(p, d, expired).1 == None
    ensures Next(p, Next(p, d, expired).0, expired) == Next(p, d, expired)
    decreases |d.buffer|
  {
    if d.pending == [] && d.buffer != [] && !d.paste && !MustWait(p, d.buffer, expired) && GoesOn(p, d) {
      NoneIsStable(p, Behind(p, d), expired);
    }
  }

  ghost predicate EndInv(p: Parser, s: Sys, ended: bool)
    requires Sound(p)
  {
    && (s.reader.eof ==> ended) && (s.ended ==> ended)
    && (s.pump.HoldingEnd? || s.pump.DeliveringEnd? ==> s.ended && Exhausted(p, s))
  }

  lemma EndKeeps(p: Parser, s: Sys, a: Act, careful: bool, ended: bool)
    requires Sound(p) && Enabled(s, a, careful) && EndInv(p, s, ended)
    ensures EndInv(p, After(p, s, a, careful), ended || a == StopReading(true))
  {
    if a.Poll? {
      PollKeepsEnd(p, s, ended);
    } else if a.TakeChunk? || a.Update? || a.NextPrompt? {
      OthersKeepEnd(p, s, a, careful, ended);
    }
  }

  lemma PollKeepsEnd(p: Parser, s: Sys, ended: bool)
    requires Sound(p) && s.pump.Asking? && EndInv(p, s, ended)
    ensures EndInv(p, Polled(p, s), ended)
  {
    if Next(p, s.decoder, s.expired).1 == None { NoneIsStable(p, s.decoder, s.expired); }
  }

  lemma OthersKeepEnd(p: Parser, s: Sys, a: Act, careful: bool, ended: bool)
    requires Sound(p) && Enabled(s, a, careful) && EndInv(p, s, ended)
    requires a.TakeChunk? || a.Update? || a.NextPrompt?
    ensures EndInv(p, After(p, s, a, careful), ended)
  {
  }

  /**
   The pump says that the input has ended only if the reader really came to its end, and only when nothing more can be
   decoded from what is there.
   */
  lemma {:induction false} EndIsReal(p: Parser, states: seq<Sys>, acts: seq<Act>, careful: bool, i: nat)
    requires Sound(p) && Run(p, states, acts, careful) && i <= |acts|
    ensures EndInv(p, states[i], ReaderEnded(acts, i))
  {
    if i > 0 {
      EndIsReal(p, states, acts, careful, i - 1);
      EndKeeps(p, states[i - 1], acts[i - 1], careful, ReaderEnded(acts, i - 1));
      if acts[i - 1] == StopReading(true) { assert ReaderEnded(acts, i); }
    }
  }

  predicate SeesEnd(s: Sys, a: Act) {
    (a.ChunksClosed? || a.Drained?) && s.reader.eof
  }

  lemma EndNext(p: Parser, s: Sys, a: Act, careful: bool)
    requires Sound(p) && Enabled(s, a, careful)
    ensures After(p, s, a, careful).ended <==> s.ended || SeesEnd(s, a)
    ensures a.Poll? && s.ended ==> !After(p, s, a, careful).pump.Waiting?
  {
  }

  /** Once the end has been seen it stays known, and the pump never waits for input again. */
  lemma {:induction false} EndIsKnown(p: Parser, states: seq<Sys>, acts: seq<Act>, careful: bool, i: nat, j: nat)
    requires Sound(p) && Run(p, states, acts, careful) && i < j <= |acts| && SeesEnd(states[i], acts[i])
    ensures states[j].ended && !(acts[j - 1].Poll? && states[j].pump.Waiting? && j > i + 1)
    decreases j
  {
    EndNext(p, states[j - 1], acts[j - 1], careful);
    if j > i + 1 { EndIsKnown(p, states, acts, careful, i, j - 1); }
  }

  // ---------- What a prompt consumes ----------

  /** The model acts on an event, and is done with it. */
  predicate Finishes(s: Sys, a: Act) {
    a == Update(true) && !s.program.done && s.program.mailbox.Some? && s.program.mailbox.value.Input?
  }

  /** After that the pump stops without taking another event. */
  predicate Over(s: Sys) {
    && s.program.done && s.program.mailbox == None
    && match s.pump
       case Delivering(_) => s.program.receipt == Some(Receipt(true, true))
       case Draining => true
       case Exited => true
       case _ => false
  }

  lemma FinishingEnds(p: Parser, s: Sys, a: Act)
    requires Sound(p) && Inv(s) && Enabled(s, a, true) && Finishes(s, a)
    ensures Over(After(p, s, a, true))
    ensures After(p, s, a, true).history.consumed == s.history.consumed + [s.program.mailbox.value.event]
  {
  }

  lemma OverStays(p: Parser, s: Sys, a: Act)
    requires Sound(p) && Inv(s) && Enabled(s, a, true) && Over(s) && !a.NextPrompt?
    ensures Over(After(p, s, a, true)) && After(p, s, a, true).history.consumed == s.history.consumed
    ensures After(p, s, a, true).prompt == s.prompt
  {
  }

  lemma StillOver(p: Parser, states: seq<Sys>, acts: seq<Act>, i: nat)
    requires Sound(p) && Run(p, states, acts, true) && i < |acts| && Over(states[i]) && !acts[i].NextPrompt?
    ensures Over(states[i + 1]) && states[i + 1].history.consumed == states[i].history.consumed
  {
    InvAt(p, states, acts, i);
    OverStays(p, states[i], acts[i]);
  }

  /** The event that finishes a prompt is the last one it consumes; all later ones are left to the next prompt. */
  lemma {:induction false} FinishingIsLast(p: Parser, states: seq<Sys>, acts: seq<Act>, i: nat, j: nat)
    requires Sound(p) && Run(p, states, acts, true) && i < j < |states| && Finishes(states[i], acts[i])
    requires forall k :: i < k < j ==> !acts[k].NextPrompt?
    ensures states[j].history.consumed == states[i].history.consumed + [states[i].program.mailbox.value.event]
    ensures Over(states[j])
    decreases j
  {
    if j == i + 1 {
      NowOver(p, states, acts, i);
    } else {
      FinishingIsLast(p, states, acts, i, j - 1);
      StillOver(p, states, acts, j - 1);
    }
  }

  lemma NowOver(p: Parser, states: seq<Sys>, acts: seq<Act>, i: nat)
    requires Sound(p) && Run(p, states, acts, true) && i < |acts| && Finishes(states[i], acts[i])
    ensures Over(states[i + 1])
    ensures states[i + 1].history.consumed == states[i].history.consumed + [states[i].program.mailbox.value.event]
  {
    InvAt(p, states, acts, i);
    FinishingEnds(p, states[i], acts[i]);
  }

  /** How an event is consumed: by a model that is not done, or, if it is no key and no paste, without the model. */
  predicate ConsumedBy(s: Sys, a: Act, event: Event) {
    || (a.Update? && !s.program.done && s.program.running && s.program.mailbox == Some(Input(event)))
    || (a.Post? && s.pump == Holding(event) && !event.Key? && !event.Paste? && !event.PasteStart?)
  }

  /** What is consumed, and what the pump hears of it: whether a model acted on the event, and whether it is done. */
  lemma ConsumedByModelOrProgram(p: Parser, states: seq<Sys>, acts: seq<Act>, i: nat)
    requires Sound(p) && Run(p, states, acts, true) && i < |acts|
    ensures var before, after := states[i].history.consumed, states[i + 1].history.consumed;
      after == before || exists event :: after == before + [event] && ConsumedBy(states[i], acts[i], event)
    ensures acts[i].Update? ==>
      var receipt := states[i + 1].program.receipt;
      && receipt.Some? && (receipt.value.consumed <==> !states[i].program.done)
      && (receipt.value.consumed ==> receipt.value.finished == states[i + 1].program.done)
  {
    InvAt(p, states, acts, i);
    ConsumptionStep(p, states[i], acts[i]);
  }

  lemma ConsumptionStep(p: Parser, s: Sys, a: Act)
    requires Sound(p) && Inv(s) && Enabled(s, a, true)
    ensures var s' := After(p, s, a, true); var before, after := s.history.consumed, s'.history.consumed;
      && (after == before || exists event :: after == before + [event] && ConsumedBy(s, a, event))
      && (a.Update? ==>
            && s'.program.receipt.Some? && (s'.program.receipt.value.consumed <==> !s.program.done)
            && (s'.program.receipt.value.consumed ==> s'.program.receipt.value.finished == s'.program.done))
  {
    if a.Post? {
      assert ConsumedBy(s, a, s.pump.event);
    } else if a.Update? {
      UpdateConsumes(s, a);
    } else {
      OthersConsumeNothing(p, s, a);
    }
  }

  lemma UpdateConsumes(s: Sys, a: Act)
    requires s.program.running && s.program.mailbox.Some? && a.Update?
    ensures var s' := Updated(s, a.finishes); var before, after := s.history.consumed, s'.history.consumed;
      && (after == before || exists event :: after == before + [event] && ConsumedBy(s, a, event))
      && s'.program.receipt.Some? && (s'.program.receipt.value.consumed <==> !s.program.done)
      && (s'.program.receipt.value.consumed ==> s'.program.receipt.value.finished == s'.program.done)
  {
    if !s.program.done && s.program.mailbox.value.Input? {
      assert ConsumedBy(s, a, s.program.mailbox.value.event);
    }
  }

  lemma OthersConsumeNothing(p: Parser, s: Sys, a: Act)
    requires Sound(p) && Enabled(s, a, true) && !a.Post? && !a.Update?
    ensures After(p, s, a, true).history.consumed == s.history.consumed
  {
  }
}
