/**
 The shell object whose mutex guards the client, written the way its critical sections update it in place.
 Each method is one critical section; its contract says that it is exactly that step of the protocol in
 `ClientLease`: the same new shared state and the same next point of the goroutine that executes it.
 */
module ShellClient {
  import opened Prelude
  import opened ClientLease

  /** The protocol with a single goroutine at `pc`, to name the step a critical section performs. */
  function Solo(sh: Shared, pc: Pc): Sys {
    Sys(sh, [pc], [], 0, None, {}, {}, {}, false)
  }

  /** The shared state and goroutine `t` have changed as with a single goroutine, and nobody else has moved. */
  predicate MovedAlike(one: Sys, s: Sys, whole: Sys, t: nat)
    requires t < |s.pcs|
  {
    whole.sh == one.sh && |one.pcs| == 1 && whole.pcs == s.pcs[t := one.pcs[0]]
  }

  /**
   A step of goroutine `t` in the whole protocol does to the shared state, and to where `t` goes on, what the same step
   of a single goroutine does; only the number of a newly created client comes from elsewhere. Nobody else moves.
   */
  lemma StepsAreLocal(s: Sys, t: nat, ok: bool)
    requires Enabled(s, t, Go(ok)) && !s.pcs[t].Create?
    ensures Enabled(Solo(s.sh, s.pcs[t]), 0, Go(ok))
    ensures MovedAlike(After(Solo(s.sh, s.pcs[t]), 0, Go(ok)), s, After(s, t, Go(ok)), t)
  {
    var pc := s.pcs[t];
    var one := Solo(s.sh, pc);
    if Closing(pc) {
      CloseIsLocal(s, t, pc, ok, one);
    } else if Draining(pc) {
      DrainIsLocal(s, t, pc, ok, one);
    } else if Replacing(pc) {
      ReplaceIsLocal(s, t, pc, ok, one);
    } else if Forcing(pc) {
      ForceIsLocal(s, t, pc, one);
    } else {
      AcquireIsLocal(s, t, ok, one);
    }
  }

  lemma CloseIsLocal(s: Sys, t: nat, pc: Pc, ok: bool, one: Sys)
    requires t < |s.pcs| && Closing(pc) && one == Solo(s.sh, pc)
    ensures MovedAlike(StepClose(one, 0, pc, ok), s, StepClose(s, t, pc, ok), t)
  {
  }

  lemma DrainIsLocal(s: Sys, t: nat, pc: Pc, ok: bool, one: Sys)
    requires t < |s.pcs| && Draining(pc) && one == Solo(s.sh, pc)
    ensures MovedAlike(StepDrainOld(one, 0, pc, ok), s, StepDrainOld(s, t, pc, ok), t)
  {
  }

  lemma ReplaceIsLocal(s: Sys, t: nat, pc: Pc, ok: bool, one: Sys)
    requires t < |s.pcs| && Replacing(pc) && !pc.Create? && one == Solo(s.sh, pc)
    ensures MovedAlike(StepReplace(one, 0, pc, ok), s, StepReplace(s, t, pc, ok), t)
  {
  }

  lemma ForceIsLocal(s: Sys, t: nat, pc: Pc, one: Sys)
    requires t < |s.pcs| && Forcing(pc) && one == Solo(s.sh, pc)
    ensures MovedAlike(StepForce(one, 0, pc), s, StepForce(s, t, pc), t)
  {
  }

  lemma AcquireIsLocal(s: Sys, t: nat, ok: bool, one: Sys)
    requires Enabled(s, t, Go(ok)) && one == Solo(s.sh, s.pcs[t]) && Enabled(one, 0, Go(ok))
    requires var pc := s.pcs[t]; !Draining(pc) && !Replacing(pc) && !Closing(pc) && !Forcing(pc)
    ensures MovedAlike(StepGo(one, 0, ok), s, StepGo(s, t, ok), t)
  {
    if s.pcs[t].Settle? {
      SettleIsLocal(s, t, s.pcs[t].ch, s.pcs[t].who, s.pcs[t].failed, one);
    }
  }

  lemma SettleIsLocal(s: Sys, t: nat, ch: nat, who: Caller, failed: bool, one: Sys)
    requires t < |s.pcs| && ch < |s.sh.changes| && one == Solo(s.sh, Settle(ch, who, failed))
    ensures MovedAlike(StepSettle(one, 0, ch, who, failed), s, StepSettle(s, t, ch, who, failed), t)
  {
  }

  class Shell {
    var client: Option<nat>
    var clientInvalid: bool
    var clientUses: map<nat, nat>
    var useCells: seq<Use>
    var clientChange: Option<nat>
    var changes: seq<Change>
    var closed: bool
    var closeErr: bool

    function View(): Shared
      reads this
    {
      Shared(client, clientInvalid, clientUses, useCells, clientChange, changes, closed, closeErr)
    }

    constructor (initial: Option<nat>)
      ensures View() == Shared(initial, false, map[], [], None, [], false, false)
    {
      client, clientInvalid, closed, closeErr := initial, false, false, false;
      clientUses, useCells, clientChange, changes := map[], [], None, [];
    }

    /** registerClientLeaseLocked; the caller holds the mutex and knows a client is published. */
    method RegisterClientLeaseLocked() returns (cli: nat)
      requires client.Some?
      modifies this
      ensures View() == Registered(old(View())) && Some(cli) == old(client)
    {
      cli := client.value;
      var use;
      if cli in clientUses && clientUses[cli] < |useCells| {
        use := clientUses[cli];
      } else {
        use := |useCells|;
        useCells := useCells + [Use(0, false)];
        clientUses := clientUses[cli := use];
      }
      var cell := useCells[use];
      useCells := useCells[use := Use(cell.count + 1, cell.done)];
      assert View().cells == Registered(old(View())).cells;
    }

    /** The release closure of a lease on `cli`. */
    method ReleaseLease(cli: nat)
      modifies this
      ensures View() == Released(old(View()), cli)
    {
      if cli !in clientUses || clientUses[cli] >= |useCells| || useCells[clientUses[cli]].count == 0 {
        return;
      }
      var use := clientUses[cli];
      var count := useCells[use].count - 1;
      useCells := useCells[use := Use(count, useCells[use].done)];
      if count == 0 {
        clientUses := clientUses - {cli};
        useCells := useCells[use := Use(0, true)];
      }
      assert View().cells == Released(old(View()), cli).cells;
    }

    method InvalidateClient(cli: nat)
      modifies this
      ensures View() == Invalidated(old(View()), cli)
    {
      if client == Some(cli) {
        clientInvalid := true;
      }
    }

    method BeginChangeLocked(closing: bool) returns (ch: nat)
      modifies this
      ensures View() == Begun(old(View()), closing) && ch == old(|changes|)
    {
      ch := |changes|;
      changes := changes + [Change(false, false, closing)];
      clientChange := Some(ch);
    }

    method FinishClientChange(ch: nat, failed: bool)
      requires ch < |changes|
      modifies this
      ensures View() == Finished(old(View()), ch, failed)
    {
      changes := changes[ch := Change(changes[ch].done, failed, changes[ch].closing)];
      if clientChange == Some(ch) {
        clientChange := None;
      }
      changes := changes[ch := Change(true, changes[ch].failed, changes[ch].closing)];
    }

    /** The critical section at the top of the retry loops of acquireClient and ensureClient. */
    method EnterSection(who: Caller) returns (next: Pc)
      modifies this
      ensures var s := StepEnter(Solo(old(View()), Enter(who)), 0, who); View() == s.sh && next == s.pcs[0]
    {
      if closed {
        return Idle;
      }
      if clientChange.Some? {
        return Await(who, clientChange.value);
      }
      if who == Acquiring && client.Some? && !clientInvalid {
        var cli := RegisterClientLeaseLocked();
        return Idle;
      }
      var prior := client;
      var ch := BeginChangeLocked(false);
      next := if prior.Some? then ReadUse(ch, who, prior.value) else Create(ch, who);
    }

    /** acquireClient after a change it waited for did not fail. */
    method RecheckSection() returns (next: Pc)
      modifies this
      ensures var s := StepRecheck(Solo(old(View()), Recheck), 0); View() == s.sh && next == s.pcs[0]
    {
      if !closed && clientChange.None? && client.Some? && !clientInvalid {
        var cli := RegisterClientLeaseLocked();
        return Idle;
      }
      return Enter(Acquiring);
    }

    /** refreshClient takes the old client out of the shell before closing it. */
    method RetireSection(ch: nat, who: Caller, prior: nat) returns (next: Pc)
      modifies this
      ensures var pc := Retire(ch, who, prior);
        var s := StepDrainOld(Solo(old(View()), pc), 0, pc, true); View() == s.sh && next == s.pcs[0]
    {
      if client == Some(prior) {
        client := None;
        clientInvalid := false;
      }
      return CloseOld(ch, who, prior);
    }

    /** refreshClient publishes its replacement, unless the shell was closed meanwhile. */
    method PublishSection(ch: nat, who: Caller, made: nat) returns (next: Pc)
      modifies this
      ensures var pc := Publish(ch, who, made);
        var s := StepReplace(Solo(old(View()), pc), 0, pc, true); View() == s.sh && next == s.pcs[0]
    {
      if closed {
        return Discard(ch, who, made);
      }
      client := Some(made);
      clientInvalid := false;
      return Settle(ch, who, false);
    }

    /** The critical section in which acquireClient ends its own refresh and takes its lease. */
    method SettleSection(ch: nat, failed: bool) returns (next: Pc)
      requires ch < |changes|
      modifies this
      ensures var s := StepSettle(Solo(old(View()), Settle(ch, Acquiring, failed)), 0, ch, Acquiring, failed);
        View() == s.sh && next == s.pcs[0]
    {
      var err := failed;
      if closed {
        err := true;
      } else if !err {
        if client.Some? {
          var cli := RegisterClientLeaseLocked();
        } else {
          err := true;
        }
      }
      FinishClientChange(ch, err);
      return Idle;
    }

    /** The critical section at the top of the loop of closeClientSubsystem. */
    method CloseEnterSection() returns (next: Pc)
      modifies this
      ensures var s := StepClose(Solo(old(View()), CloseEnter), 0, CloseEnter, true); View() == s.sh && next == s.pcs[0]
    {
      if closed {
        return Idle;
      }
      if clientChange.Some? {
        return CloseAwait(clientChange.value);
      }
      var ch := BeginChangeLocked(true);
      if client.Some? && client.value in clientUses {
        return CloseDrain(ch, client.value, clientUses[client.value]);
      }
      return CloseRetire(ch, client);
    }

    method CloseRetireSection(ch: nat, cli: Option<nat>) returns (next: Pc)
      modifies this
      ensures var pc := CloseRetire(ch, cli);
        var s := StepClose(Solo(old(View()), pc), 0, pc, true); View() == s.sh && next == s.pcs[0]
    {
      client := None;
      closed := true;
      return CloseCall(ch, cli);
    }

    /** The first critical section of forceCloseClient, entered with or without a change of its own. */
    method ForceEnterSection(own: Option<nat>) returns (next: Pc)
      modifies this
      ensures var pc := ForceEnter(own);
        var s := StepForce(Solo(old(View()), pc), 0, pc); View() == s.sh && next == s.pcs[0]
    {
      if closed {
        return AfterForce(own, closeErr);
      }
      var cli := client;
      client := None;
      closed := true;
      closeErr := true;
      return ForceCall(own, cli);
    }
  }
}
