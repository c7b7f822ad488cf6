/** What the client lease protocol guarantees over every run. */
module ClientLeaseRuns {
  import opened Prelude
  import opened ClientLease
  import opened ClientLeaseInvariant

  // ---------- What every run guarantees ----------

  /** The number of goroutines that have begun a change and not finished it. */
  ghost function Changers(s: Sys): set<nat> {
    set t | 0 <= t < |s.pcs| && Owned(s.pcs[t]).Some?
  }

  /** In every interleaving at most one refresh or shutdown is in flight, and it is the one waiters can see. */
  lemma OneChangeInFlight(states: seq<Sys>, events: seq<Event>, i: nat)
    requires Run(states, events) && i < |states|
    ensures |Changers(states[i])| <= 1
    ensures Changers(states[i]) == {} <==> states[i].sh.change.None?
    ensures forall t :: t in Changers(states[i]) ==> Owned(states[i].pcs[t]) == states[i].sh.change
  {
    InvAt(states, events, i);
    var s := states[i];
    if s.holder.Some? {
      assert Changers(s) == {s.holder.value};
    } else {
      assert Changers(s) == {};
    }
  }

  /** Each lease count is exactly the number of outstanding leases, and no record outlives its last lease. */
  lemma LeaseCountsExact(states: seq<Sys>, events: seq<Event>, i: nat, c: nat)
    requires Run(states, events) && i < |states|
    ensures var s := states[i];
      && (c in s.sh.uses <==> OpenOn(s.leases, c) != {})
      && (c in s.sh.uses ==> HasCell(s.sh, c) && s.sh.cells[s.sh.uses[c]].count == |OpenOn(s.leases, c)|)
  {
    InvAt(states, events, i);
    var s := states[i];
    assert Counted(s.sh.uses, s.sh.cells, s.leases, c);
  }

  /**
   Only a forced close may close a client with outstanding leases: whatever a refresh, a graceful close or a
   discarded reconnect closes has none when it is closed, and never gets one later.
   */
  lemma OnlyForcedCloseInterrupts(states: seq<Sys>, events: seq<Event>, i: nat, j: nat, c: nat)
    requires Run(states, events) && i <= j < |states|
    requires c in states[i].idleClosed
    ensures OpenOn(states[i].leases, c) == {} && OpenOn(states[j].leases, c) == {}
    ensures states[j].sh.client != Some(c)
  {
    InvAt(states, events, i);
    InvAt(states, events, j);
    HistoryGrows(states, events, i, j);
  }

  /** Closing is for ever, and so is having been closed. */
  predicate Later(s: Sys, s': Sys) {
    && (s.sh.closed ==> s'.sh.closed)
    && s.idleClosed <= s'.idleClosed && s.forceClosed <= s'.forceClosed
    && s.created <= s'.created
    && (s.sh.closed ==> |s'.leases| == |s.leases|)
  }

  lemma StepLater(s: Sys, t: nat, a: Act)
    requires Inv(s) && Enabled(s, t, a)
    ensures Later(s, After(s, t, a))
  {
    if a.Go? {
      var pc := s.pcs[t];
      if Draining(pc) || Replacing(pc) {
        RefreshLater(s, t, a.ok);
      } else if Closing(pc) || Forcing(pc) {
        CloseLater(s, t, a.ok);
      } else {
        AcquireLater(s, t, a.ok);
      }
    }
  }

  lemma RefreshLater(s: Sys, t: nat, ok: bool)
    requires t < |s.pcs| && Enabled(s, t, Go(ok)) && (Draining(s.pcs[t]) || Replacing(s.pcs[t]))
    ensures Later(s, StepGo(s, t, ok))
  {
  }

  lemma CloseLater(s: Sys, t: nat, ok: bool)
    requires t < |s.pcs| && Enabled(s, t, Go(ok)) && (Closing(s.pcs[t]) || Forcing(s.pcs[t]))
    ensures Later(s, StepGo(s, t, ok))
  {
    if Forcing(s.pcs[t]) {
      assert Later(s, StepForce(s, t, s.pcs[t]));
    } else {
      GracefulLater(s, t, ok);
    }
  }

  lemma GracefulLater(s: Sys, t: nat, ok: bool)
    requires t < |s.pcs| && Closing(s.pcs[t])
    ensures Later(s, StepClose(s, t, s.pcs[t], ok))
  {
  }

  lemma AcquireLater(s: Sys, t: nat, ok: bool)
    requires t < |s.pcs| && Enabled(s, t, Go(ok))
    requires var pc := s.pcs[t]; !Draining(pc) && !Replacing(pc) && !Closing(pc) && !Forcing(pc)
    ensures Later(s, StepGo(s, t, ok))
  {
  }

  lemma EventLater(states: seq<Sys>, events: seq<Event>, i: nat)
    requires Run(states, events) && i < |events|
    ensures Later(states[i], states[i + 1])
  {
    InvAt(states, events, i);
    assert Enacts(states[i], events[i], states[i + 1]);
    StepLater(states[i], events[i].thread, events[i].act);
  }

  lemma {:induction false} LaterChain(states: seq<Sys>, i: nat, j: nat)
    requires i <= j < |states|
    requires forall k :: i <= k < j ==> Later(states[k], states[k + 1])
    ensures Later(states[i], states[j])
    decreases j - i
  {
    if i < j {
      LaterChain(states, i, j - 1);
      assert Later(states[j - 1], states[j - 1 + 1]);
    }
  }

  lemma HistoryGrows(states: seq<Sys>, events: seq<Event>, i: nat, j: nat)
    requires Run(states, events) && i <= j < |states|
    ensures Later(states[i], states[j])
  {
    forall k | i <= k < j ensures Later(states[k], states[k + 1]) {
      EventLater(states, events, k);
    }
    LaterChain(states, i, j);
  }

  /** Once the shell is closed no client is published and no lease is granted, whatever is still running. */
  lemma ClosedIsFinal(states: seq<Sys>, events: seq<Event>, i: nat, j: nat)
    requires Run(states, events) && i <= j < |states| && states[i].sh.closed
    ensures states[j].sh.closed && states[j].sh.client == None
    ensures |states[j].leases| == |states[i].leases|
  {
    InvAt(states, events, i);
    InvAt(states, events, j);
    HistoryGrows(states, events, i, j);
  }

  /** No client leaks: it is published, in the hands of a goroutine about to close it or publish it, or closed. */
  lemma ClientsConserved(states: seq<Sys>, events: seq<Event>, i: nat, c: nat)
    requires Run(states, events) && i < |states| && c < states[i].created
    ensures var s := states[i];
      s.sh.client == Some(c) || c in s.idleClosed + s.forceClosed || InHand(s, c)
  {
    InvAt(states, events, i);
    assert Conserved(states[i]);
  }

  /** When a closed shell has come to rest, every client ever created has been closed. */
  lemma NothingLeaksAtRest(states: seq<Sys>, events: seq<Event>, i: nat, c: nat)
    requires Run(states, events) && i < |states| && c < states[i].created
    requires states[i].sh.closed && forall t :: 0 <= t < |states[i].pcs| ==> states[i].pcs[t] == Idle
    ensures c in states[i].idleClosed + states[i].forceClosed
  {
    InvAt(states, events, i);
    assert Conserved(states[i]);
  }

  /** Waking up is never lost: a goroutine blocked on a change or on leases is blocked by something still there. */
  lemma BlockedForAReason(states: seq<Sys>, events: seq<Event>, i: nat, t: nat)
    requires Run(states, events) && i < |states| && t < |states[i].pcs|
    requires states[i].pcs[t] != Idle && !CanGo(states[i].sh, states[i].pcs[t])
    ensures var s := states[i]; var pc := s.pcs[t];
      || ((pc.Await? || pc.CloseAwait?) && s.sh.change == Some(pc.ch) && s.holder.Some? && s.holder.value != t)
      || ((pc.Drain? || pc.CloseDrain?) && OpenOn(s.leases, pc.prior) != {})
  {
    InvAt(states, events, i);
    var s := states[i];
    assert PcOk(s, s.pcs[t]);
    if s.pcs[t].Drain? || s.pcs[t].CloseDrain? {
      assert Counted(s.sh.uses, s.sh.cells, s.leases, s.pcs[t].prior);
    }
  }

  /** A change in flight can always take its next step, unless it drains leases that are still outstanding. */
  lemma ChangeProgresses(states: seq<Sys>, events: seq<Event>, i: nat)
    requires Run(states, events) && i < |states| && states[i].sh.change.Some?
    ensures states[i].holder.Some? && states[i].holder.value < |states[i].pcs|
    ensures var s, pc := states[i], states[i].pcs[states[i].holder.value];
      CanGo(s.sh, pc) || ((pc.Drain? || pc.CloseDrain?) && OpenOn(s.leases, pc.prior) != {})
  {
    InvAt(states, events, i);
    var t := states[i].holder.value;
    assert Owned(states[i].pcs[t]).Some?;
    if !CanGo(states[i].sh, states[i].pcs[t]) {
      BlockedForAReason(states, events, i, t);
    }
  }

  // ---------- Leases on invalidated clients ----------

  /** The rule every caller follows: a client is invalidated by an operation that still holds a lease on it. */
  ghost predicate HeldInvalidation(s: Sys, e: Event) {
    e.act.Invalidate? ==> OpenOn(s.leases, e.act.client) != {}
  }

  /** A refresh that found its client sound, or replaced it, still has a sound client when it settles. */
  predicate Sound(s: Sys) {
    && !s.badGrant
    && forall t :: 0 <= t < |s.pcs| ==>
         (s.pcs[t].Probe? || (s.pcs[t].Settle? && !s.pcs[t].failed)) && !s.sh.closed ==> !s.sh.invalid
  }

  lemma GoStaysSound(s: Sys, t: nat, ok: bool)
    requires Inv(s) && Sound(s) && Enabled(s, t, Go(ok))
    ensures Sound(StepGo(s, t, ok))
  {
    var pc, s' := s.pcs[t], StepGo(s, t, ok);
    assert PcOk(s, pc);
    if Draining(pc) || Replacing(pc) {
      RefreshStaysSound(s, t, ok);
    } else if Closing(pc) || Forcing(pc) {
      CloseStaysSound(s, t, ok);
    } else {
      AcquireStaysSound(s, t, ok);
    }
  }

  lemma RefreshStaysSound(s: Sys, t: nat, ok: bool)
    requires Inv(s) && Sound(s) && Enabled(s, t, Go(ok)) && (Draining(s.pcs[t]) || Replacing(s.pcs[t]))
    ensures Sound(StepGo(s, t, ok))
  {
    assert PcOk(s, s.pcs[t]);
  }

  lemma CloseStaysSound(s: Sys, t: nat, ok: bool)
    requires Sound(s) && Enabled(s, t, Go(ok)) && (Closing(s.pcs[t]) || Forcing(s.pcs[t]))
    ensures Sound(StepGo(s, t, ok))
  {
    if Forcing(s.pcs[t]) {
      ForcedStaysSound(s, t);
    } else {
      GracefulStaysSound(s, t, ok);
    }
  }

  lemma ForcedStaysSound(s: Sys, t: nat)
    requires Sound(s) && t < |s.pcs| && Forcing(s.pcs[t])
    ensures Sound(StepForce(s, t, s.pcs[t]))
  {
  }

  lemma GracefulStaysSound(s: Sys, t: nat, ok: bool)
    requires Sound(s) && t < |s.pcs| && Closing(s.pcs[t])
    ensures Sound(StepClose(s, t, s.pcs[t], ok))
  {
  }

  lemma AcquireStaysSound(s: Sys, t: nat, ok: bool)
    requires ClientOk(s) && Sound(s) && Enabled(s, t, Go(ok))
    requires var pc := s.pcs[t]; !Draining(pc) && !Replacing(pc) && !Closing(pc) && !Forcing(pc)
    ensures Sound(StepGo(s, t, ok))
  {
  }

  lemma StepStaysSound(s: Sys, e: Event)
    requires Inv(s) && Sound(s) && Enabled(s, e.thread, e.act) && HeldInvalidation(s, e)
    ensures Sound(After(s, e.thread, e.act))
  {
    match e.act
    case Go(ok) => GoStaysSound(s, e.thread, ok);
    case Invalidate(c) => InvalidateStaysSound(s, c);
    case _ =>
  }

  lemma InvalidateStaysSound(s: Sys, c: nat)
    requires Inv(s) && Sound(s) && OpenOn(s.leases, c) != {}
    ensures Sound(StepInvalidate(s, c))
  {
    forall t | 0 <= t < |s.pcs| && (s.pcs[t].Probe? || (s.pcs[t].Settle? && !s.pcs[t].failed)) && !s.sh.closed
      ensures s.sh.client != Some(c)
    {
      assert PcOk(s, s.pcs[t]);
    }
  }

  /** If only lease holders invalidate, no lease is ever granted on an invalidated client. */
  lemma {:induction false} NoLeaseOnInvalidated(states: seq<Sys>, events: seq<Event>, i: nat)
    requires Run(states, events) && i < |states|
    requires forall k {:trigger events[k]} :: 0 <= k < |events| ==> HeldInvalidation(states[k], events[k])
    ensures Sound(states[i])
  {
    if i > 0 {
      NoLeaseOnInvalidated(states, events, i - 1);
      InvAt(states, events, i - 1);
      EventStaysSound(states[i - 1], events[i - 1], states[i]);
    }
  }

  lemma EventStaysSound(s: Sys, e: Event, s': Sys)
    requires Inv(s) && Sound(s) && HeldInvalidation(s, e) && Enacts(s, e, s')
    ensures Sound(s')
  {
    StepStaysSound(s, e);
  }

  lemma OneMore(states: seq<Sys>, events: seq<Event>, a: Act) returns (states': seq<Sys>, events': seq<Event>)
    requires Run(states, events) && Enabled(states[|events|], 0, a)
    ensures Run(states', events') && states'[|events'|] == After(states[|events|], 0, a)
  {
    var e := Event(0, a);
    states', events' := states + [After(states[|events|], 0, a)], events + [e];
    forall i | 0 <= i < |events'| ensures Enacts(states'[i], events'[i], states'[i + 1]) {
      if i < |events| { assert Enacts(states[i], events[i], states[i + 1]); }
    }
  }

  /** A reconnect has begun on a shell without a client. */
  lemma AReconnectBegins() returns (states: seq<Sys>, events: seq<Event>)
    ensures Run(states, events)
    ensures states[|events|] ==
      Sys(Shared(None, false, map[], [], Some(0), [Change(false, false, false)], false, false),
          [Create(0, Acquiring)], [], 0, Some(0), {}, {}, {}, false)
  {
    var s := Sys(Shared(None, false, map[], [], None, [], false, false), [Idle], [], 0, None, {}, {}, {}, false);
    states, events := [s], [];
    states, events := OneMore(states, events, Start(Enter(Acquiring)));
    assert states[|events|] == s.(pcs := [Enter(Acquiring)]);
    states, events := OneMore(states, events, Go(true));
    BegunAlone(s.(pcs := [Enter(Acquiring)]));
  }

  lemma BegunAlone(s: Sys)
    requires s.pcs == [Enter(Acquiring)] && s.sh.changes == [] && s.sh.change.None? && s.sh.client.None? && !s.sh.closed
    ensures var s' := After(s, 0, Go(true));
      s' == s.(sh := s.sh.(change := Some(0), changes := [Change(false, false, false)]),
               pcs := [Create(0, Acquiring)], holder := Some(0))
  {
    assert [] + [Change(false, false, false)] == [Change(false, false, false)];
  }

  /** It has published its client, and settles next. */
  lemma ItsClientIsPublished() returns (states: seq<Sys>, events: seq<Event>)
    ensures Run(states, events)
    ensures states[|events|] ==
      Sys(Shared(Some(0), false, map[], [], Some(0), [Change(false, false, false)], false, false),
          [Settle(0, Acquiring, false)], [], 1, Some(0), {}, {}, {}, false)
  {
    states, events := AReconnectBegins();
    states, events := OneMore(states, events, Go(true));
    states, events := OneMore(states, events, Go(true));
  }

  /**
   The rule matters. A reconnect publishes its client and registers its own lease in two critical sections; a
   caller without a lease that invalidates the client in between gets that lease granted on an invalidated client.
   */
  lemma UnheldInvalidationIsGranted() returns (states: seq<Sys>, events: seq<Event>)
    ensures Run(states, events) && states[|events|].badGrant
  {
    states, events := ItsClientIsPublished();
    states, events := OneMore(states, events, Invalidate(0));
    assert 0 in states[|events|].invalidated && states[|events|].pcs[0] == Settle(0, Acquiring, false);
    states, events := OneMore(states, events, Go(true));
  }
}
