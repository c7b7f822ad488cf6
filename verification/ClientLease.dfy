/**
 The SFTP client lease protocol of the interactive shell.

 Every critical section of the shell's client mutex is one atomic function on `Shared`; every wait, probe,
 connect or close that runs without the mutex is a program counter of the goroutine that runs it. Any number
 of goroutines acquire, refresh, invalidate, release and close in any interleaving; contexts may expire at
 any wait and every foreign call may fail.
 */
module ClientLease {
  import opened Prelude

  // ---------- State guarded by the mutex ----------

  /** A record counting the leases of one client; `done` stands for its closed channel. */
  datatype Use = Use(count: nat, done: bool)

  /** A refresh or shutdown in flight; `done` stands for its closed channel. */
  datatype Change = Change(done: bool, failed: bool, closing: bool)

  /** Records that goroutines keep pointers to live in `cells` and `changes`; a pointer is an index. */
  datatype Shared = Shared(
    client: Option<nat>, invalid: bool,
    uses: map<nat, nat>, cells: seq<Use>,
    change: Option<nat>, changes: seq<Change>,
    closed: bool, closeFailed: bool)

  // ---------- Critical sections ----------

  predicate HasCell(sh: Shared, c: nat) {
    c in sh.uses && sh.uses[c] < |sh.cells|
  }

  /** A usable client is published and nothing is changing it. */
  predicate Grantable(sh: Shared) {
    !sh.closed && sh.change.None? && sh.client.Some? && !sh.invalid
  }

  function Registered(sh: Shared): Shared
    requires sh.client.Some?
  {
    var c := sh.client.value;
    if HasCell(sh, c) then
      var u := sh.uses[c];
      sh.(cells := sh.cells[u := Use(sh.cells[u].count + 1, sh.cells[u].done)])
    else
      sh.(uses := sh.uses[c := |sh.cells|], cells := sh.cells + [Use(1, false)])
  }

  function Released(sh: Shared, c: nat): Shared {
    if !HasCell(sh, c) || sh.cells[sh.uses[c]].count == 0 then sh
    else
      var u := sh.uses[c];
      var n := sh.cells[u].count - 1;
      if n == 0 then sh.(uses := sh.uses - {c}, cells := sh.cells[u := Use(0, true)])
      else sh.(cells := sh.cells[u := Use(n, sh.cells[u].done)])
  }

  function Invalidated(sh: Shared, c: nat): Shared {
    if sh.client == Some(c) then sh.(invalid := true) else sh
  }

  function Begun(sh: Shared, closing: bool): Shared {
    sh.(change := Some(|sh.changes|), changes := sh.changes + [Change(false, false, closing)])
  }

  function Finished(sh: Shared, ch: nat, failed: bool): Shared
    requires ch < |sh.changes|
  {
    sh.(change := if sh.change == Some(ch) then None else sh.change,
        changes := sh.changes[ch := Change(true, failed, sh.changes[ch].closing)])
  }

  function Retired(sh: Shared, prior: nat): Shared {
    if sh.client == Some(prior) then sh.(client := None, invalid := false) else sh
  }

  function Published(sh: Shared, made: nat): Shared {
    sh.(client := Some(made), invalid := false)
  }

  function Terminal(sh: Shared): Shared {
    sh.(client := None, closed := true)
  }

  function ForcedTerminal(sh: Shared): Shared {
    sh.(client := None, closed := true, closeFailed := true)
  }

  // ---------- Goroutines ----------

  datatype Caller = Acquiring | Ensuring

  /** Where a goroutine stands between two critical sections. `ch` is the change it owns or awaits. */
  datatype Pc =
    | Idle
    | Enter(who: Caller)
    | Await(who: Caller, ch: nat)
    | Recheck
    | ReadUse(ch: nat, who: Caller, prior: nat)
    | Drain(ch: nat, who: Caller, prior: nat, use: nat)
    | ReadInvalid(ch: nat, who: Caller, prior: nat)
    | Probe(ch: nat, who: Caller, prior: nat)
    | Retire(ch: nat, who: Caller, prior: nat)
    | CloseOld(ch: nat, who: Caller, prior: nat)
    | Create(ch: nat, who: Caller)
    | Publish(ch: nat, who: Caller, made: nat)
    | Discard(ch: nat, who: Caller, made: nat)
    | Settle(ch: nat, who: Caller, failed: bool)
    | Finish(ch: nat, failed: bool)
    | CloseEnter
    | CloseAwait(ch: nat)
    | CloseDrain(ch: nat, prior: nat, use: nat)
    | CloseRetire(ch: nat, cli: Option<nat>)
    | CloseCall(ch: nat, cli: Option<nat>)
    | CloseRecord(ch: nat, failed: bool)
    | ForceEnter(own: Option<nat>)
    | ForceCall(own: Option<nat>, cli: Option<nat>)
    | ForceRecord(own: Option<nat>)

  /** The change a goroutine must eventually finish. */
  function Owned(pc: Pc): Option<nat> {
    match pc
    case Idle | Enter(_) | Await(_, _) | Recheck | CloseEnter | CloseAwait(_) => None
    case ForceEnter(own) => own
    case ForceCall(own, _) => own
    case ForceRecord(own) => own
    case ReadUse(ch, _, _) => Some(ch)
    case Drain(ch, _, _, _) => Some(ch)
    case ReadInvalid(ch, _, _) => Some(ch)
    case Probe(ch, _, _) => Some(ch)
    case Retire(ch, _, _) => Some(ch)
    case CloseOld(ch, _, _) => Some(ch)
    case Create(ch, _) => Some(ch)
    case Publish(ch, _, _) => Some(ch)
    case Discard(ch, _, _) => Some(ch)
    case Settle(ch, _, _) => Some(ch)
    case Finish(ch, _) => Some(ch)
    case CloseDrain(ch, _, _) => Some(ch)
    case CloseRetire(ch, _) => Some(ch)
    case CloseCall(ch, _) => Some(ch)
    case CloseRecord(ch, _) => Some(ch)
  }

  predicate Draining(pc: Pc) {
    pc.ReadUse? || pc.Drain? || pc.ReadInvalid? || pc.Probe? || pc.Retire?
  }

  predicate Replacing(pc: Pc) {
    pc.CloseOld? || pc.Create? || pc.Publish? || pc.Discard?
  }

  predicate Closing(pc: Pc) {
    pc.CloseEnter? || pc.CloseAwait? || pc.CloseDrain? || pc.CloseRetire? || pc.CloseCall? || pc.CloseRecord?
  }

  predicate Forcing(pc: Pc) {
    pc.ForceEnter? || pc.ForceCall? || pc.ForceRecord?
  }

  /** The client a goroutine has taken out of the shell, or never published, and must close. */
  function Held(pc: Pc): Option<nat> {
    match pc
    case CloseOld(_, _, prior) => Some(prior)
    case Publish(_, _, made) => Some(made)
    case Discard(_, _, made) => Some(made)
    case CloseCall(_, cli) => cli
    case ForceCall(_, cli) => cli
    case _ => None
  }

  datatype Lease = Lease(client: nat, released: bool)

  /**
   The whole system. Clients are numbered in creation order below `created`. The last fields are history:
   who owns the change, which clients were closed idle, by force, or invalidated while published, and
   whether a lease was ever granted on an invalidated client.
   */
  datatype Sys = Sys(
    sh: Shared, pcs: seq<Pc>, leases: seq<Lease>, created: nat,
    holder: Option<nat>, idleClosed: set<nat>, forceClosed: set<nat>,
    invalidated: set<nat>, badGrant: bool)

  datatype Act =
    | Start(pc: Pc)          // begin an operation
    | Go(ok: bool)           // next step; `ok` is the outcome of the foreign call, if any
    | Cancel                 // the context of a wait expires
    | Release(lease: nat)
    | Invalidate(client: nat)

  predicate Enabled(s: Sys, t: nat, a: Act) {
    t < |s.pcs| &&
    match a
    case Start(pc) => s.pcs[t] == Idle && (pc.Enter? || pc == CloseEnter)
    case Go(_) => CanGo(s.sh, s.pcs[t])
    case Cancel => s.pcs[t].Await? || s.pcs[t].Drain? || s.pcs[t].CloseAwait? || s.pcs[t].CloseDrain?
    case Release(l) => l < |s.leases| && !s.leases[l].released
    case Invalidate(c) => c < s.created
  }

  /** Only a wait can block: it needs its channel closed. Pointers held must point at records. */
  predicate CanGo(sh: Shared, pc: Pc) {
    match pc
    case Idle => false
    case Await(_, ch) => ch < |sh.changes| && sh.changes[ch].done
    case CloseAwait(ch) => ch < |sh.changes| && sh.changes[ch].done
    case Drain(_, _, _, use) => use < |sh.cells| && sh.cells[use].done
    case CloseDrain(_, _, use) => use < |sh.cells| && sh.cells[use].done
    case Settle(ch, _, _) => ch < |sh.changes|
    case Finish(ch, _) => ch < |sh.changes|
    case _ => true
  }

  // ---------- Steps ----------

  function At(s: Sys, t: nat, pc: Pc): Sys
    requires t < |s.pcs|
  {
    s.(pcs := s.pcs[t := pc])
  }

  /** registerClientLeaseLocked, followed by the caller's return. */
  function Grant(s: Sys): Sys
    requires s.sh.client.Some?
  {
    var c := s.sh.client.value;
    s.(sh := Registered(s.sh), leases := s.leases + [Lease(c, false)],
       badGrant := s.badGrant || c in s.invalidated)
  }

  function Begin(s: Sys, t: nat, closing: bool): Sys {
    s.(sh := Begun(s.sh, closing), holder := Some(t))
  }

  function End(s: Sys, ch: nat, failed: bool): Sys
    requires ch < |s.sh.changes|
  {
    s.(sh := Finished(s.sh, ch, failed), holder := if s.sh.change == Some(ch) then None else s.holder)
  }

  /** The first critical section of acquireClient and ensureClient. */
  function StepEnter(s: Sys, t: nat, who: Caller): Sys
    requires t < |s.pcs|
  {
    if s.sh.closed then At(s, t, Idle)
    else if s.sh.change.Some? then At(s, t, Await(who, s.sh.change.value))
    else if who == Acquiring && Grantable(s.sh) then At(Grant(s), t, Idle)
    else
      var ch := |s.sh.changes|;
      At(Begin(s, t, false), t,
         if s.sh.client.Some? then ReadUse(ch, who, s.sh.client.value) else Create(ch, who))
  }

  /** A caller of ensureClient shares the result of the refresh it waited for; acquireClient looks again. */
  function Awoken(who: Caller, change: Change): Pc {
    match who
    case Ensuring => if change.closing then Enter(Ensuring) else Idle
    case Acquiring => if !change.closing && change.failed then Idle else Recheck
  }

  function StepAwait(s: Sys, t: nat, who: Caller, ch: nat): Sys
    requires t < |s.pcs| && ch < |s.sh.changes|
  {
    At(s, t, Awoken(who, s.sh.changes[ch]))
  }

  function StepRecheck(s: Sys, t: nat): Sys
    requires t < |s.pcs|
  {
    if Grantable(s.sh) then At(Grant(s), t, Idle) else At(s, t, Enter(Acquiring))
  }

  /** refreshClient from its first wait to the retirement of the old client. */
  function StepDrainOld(s: Sys, t: nat, pc: Pc, ok: bool): Sys
    requires t < |s.pcs|
    requires Draining(pc)
  {
    match pc
    case ReadUse(ch, who, prior) =>
      At(s, t, if prior in s.sh.uses then Drain(ch, who, prior, s.sh.uses[prior]) else ReadInvalid(ch, who, prior))
    case Drain(ch, who, prior, _) => At(s, t, ReadInvalid(ch, who, prior))
    case ReadInvalid(ch, who, prior) =>
      At(s, t, if s.sh.client == Some(prior) && s.sh.invalid then Retire(ch, who, prior) else Probe(ch, who, prior))
    case Probe(ch, who, prior) => At(s, t, if ok then Settle(ch, who, false) else Retire(ch, who, prior))
    case Retire(ch, who, prior) => At(s.(sh := Retired(s.sh, prior)), t, CloseOld(ch, who, prior))
  }

  /** refreshClient from closing the retired client to publishing or discarding its replacement. */
  function StepReplace(s: Sys, t: nat, pc: Pc, ok: bool): Sys
    requires t < |s.pcs|
    requires Replacing(pc)
  {
    match pc
    case CloseOld(ch, who, prior) =>
      At(s.(idleClosed := s.idleClosed + {prior}), t, if ok then Create(ch, who) else Settle(ch, who, true))
    case Create(ch, who) =>
      if ok then At(s.(created := s.created + 1), t, Publish(ch, who, s.created))
      else At(s, t, Settle(ch, who, true))
    case Publish(ch, who, made) =>
      if s.sh.closed then At(s, t, Discard(ch, who, made))
      else At(s.(sh := Published(s.sh, made)), t, Settle(ch, who, false))
    case Discard(ch, who, made) =>
      At(s.(idleClosed := s.idleClosed + {made}), t, Settle(ch, who, true))
  }

  /** The critical section after refreshClient, and finishClientChange. */
  function StepSettle(s: Sys, t: nat, ch: nat, who: Caller, failed: bool): Sys
    requires t < |s.pcs| && ch < |s.sh.changes|
  {
    if who == Ensuring then At(s, t, Finish(ch, failed || s.sh.closed))
    else if s.sh.closed || failed then At(End(s, ch, true), t, Idle)
    else if s.sh.client.None? then At(End(s, ch, true), t, Idle)
    else At(End(Grant(s), ch, false), t, Idle)
  }

  /** closeClientSubsystem. */
  function StepClose(s: Sys, t: nat, pc: Pc, ok: bool): Sys
    requires t < |s.pcs|
    requires Closing(pc)
  {
    match pc
    case CloseEnter =>
      if s.sh.closed then At(s, t, Idle)
      else if s.sh.change.Some? then At(s, t, CloseAwait(s.sh.change.value))
      else
        var ch := |s.sh.changes|;
        At(Begin(s, t, true), t,
           if s.sh.client.Some? && s.sh.client.value in s.sh.uses
           then CloseDrain(ch, s.sh.client.value, s.sh.uses[s.sh.client.value])
           else CloseRetire(ch, s.sh.client))
    case CloseAwait(_) => At(s, t, CloseEnter)
    case CloseDrain(ch, prior, _) => At(s, t, CloseRetire(ch, Some(prior)))
    case CloseRetire(ch, cli) => At(s.(sh := Terminal(s.sh)), t, CloseCall(ch, cli))
    case CloseCall(ch, cli) =>
      At(if cli.Some? then s.(idleClosed := s.idleClosed + {cli.value}) else s, t, CloseRecord(ch, cli.Some? && !ok))
    case CloseRecord(ch, failed) => At(s.(sh := s.sh.(closeFailed := failed)), t, Finish(ch, failed))
  }

  function AfterForce(own: Option<nat>, failed: bool): Pc {
    if own.Some? then Finish(own.value, failed) else Idle
  }

  /** forceCloseClient. */
  function StepForce(s: Sys, t: nat, pc: Pc): Sys
    requires t < |s.pcs|
    requires Forcing(pc)
  {
    match pc
    case ForceEnter(own) =>
      if s.sh.closed then At(s, t, AfterForce(own, s.sh.closeFailed))
      else At(s.(sh := ForcedTerminal(s.sh)), t, ForceCall(own, s.sh.client))
    case ForceCall(own, cli) =>
      At(if cli.Some? then s.(forceClosed := s.forceClosed + {cli.value}) else s, t, ForceRecord(own))
    case ForceRecord(own) => At(s.(sh := s.sh.(closeFailed := true)), t, AfterForce(own, true))
  }

  /** Where a goroutine goes when the context of its wait expires. */
  function Expired(pc: Pc): Pc {
    match pc
    case Drain(ch, who, _, _) => Settle(ch, who, true)
    case CloseAwait(_) => ForceEnter(None)
    case CloseDrain(ch, _, _) => ForceEnter(Some(ch))
    case _ => Idle
  }

  function StepCancel(s: Sys, t: nat): Sys
    requires Enabled(s, t, Cancel)
  {
    At(s, t, Expired(s.pcs[t]))
  }

  function StepGo(s: Sys, t: nat, ok: bool): Sys
    requires Enabled(s, t, Go(ok))
  {
    var pc := s.pcs[t];
    if Draining(pc) then StepDrainOld(s, t, pc, ok)
    else if Replacing(pc) then StepReplace(s, t, pc, ok)
    else if Closing(pc) then StepClose(s, t, pc, ok)
    else if Forcing(pc) then StepForce(s, t, pc)
    else
      match pc
      case Enter(who) => StepEnter(s, t, who)
      case Await(who, ch) => StepAwait(s, t, who, ch)
      case Recheck => StepRecheck(s, t)
      case Settle(ch, who, failed) => StepSettle(s, t, ch, who, failed)
      case Finish(ch, failed) => At(End(s, ch, failed), t, Idle)
  }

  function StepRelease(s: Sys, l: nat): Sys
    requires l < |s.leases|
  {
    var c := s.leases[l].client;
    s.(sh := Released(s.sh, c), leases := s.leases[l := Lease(c, true)])
  }

  function StepInvalidate(s: Sys, c: nat): Sys {
    s.(sh := Invalidated(s.sh, c),
       invalidated := if s.sh.client == Some(c) then s.invalidated + {c} else s.invalidated)
  }

  function After(s: Sys, t: nat, a: Act): Sys
    requires Enabled(s, t, a)
  {
    match a
    case Start(pc) => At(s, t, pc)
    case Go(ok) => StepGo(s, t, ok)
    case Cancel => StepCancel(s, t)
    case Release(l) => StepRelease(s, l)
    case Invalidate(c) => StepInvalidate(s, c)
  }

  /** `threads` idle goroutines around a shell that was given a client, or none. */
  predicate Init(s: Sys) {
    && (forall t :: 0 <= t < |s.pcs| ==> s.pcs[t] == Idle)
    && s.created <= 1
    && s.sh == Shared(if s.created == 1 then Some(0) else None, false, map[], [], None, [], false, false)
    && s.leases == [] && s.holder == None && s.idleClosed == {} && s.forceClosed == {}
    && s.invalidated == {} && !s.badGrant
  }

  datatype Event = Event(thread: nat, act: Act)

  predicate Enacts(s: Sys, e: Event, s': Sys) {
    Enabled(s, e.thread, e.act) && s' == After(s, e.thread, e.act)
  }

  /** A finite interleaving: the states passed through and the events between them. */
  predicate Run(states: seq<Sys>, events: seq<Event>) {
    && |states| == |events| + 1
    && Init(states[0])
    && forall i {:trigger events[i]} :: 0 <= i < |events| ==> Enacts(states[i], events[i], states[i + 1])
  }
}
