/** The invariant of the client lease protocol, and its preservation by every step. */
module ClientLeaseInvariant {
  import opened Prelude
  import opened ClientLease

  // ---------- Invariant ----------

  function OpenOn(leases: seq<Lease>, c: nat): set<nat> {
    set l | 0 <= l < |leases| && leases[l] == Lease(c, false)
  }

  /** `c` has a live record exactly when it has outstanding leases, and the record counts them. */
  ghost predicate Counted(uses: map<nat, nat>, cells: seq<Use>, leases: seq<Lease>, c: nat) {
    if c in uses
    then uses[c] < |cells| && cells[uses[c]] == Use(|OpenOn(leases, c)|, false) && OpenOn(leases, c) != {}
    else OpenOn(leases, c) == {}
  }

  predicate OwnCells(sh: Shared) {
    forall c, d :: c in sh.uses && d in sh.uses && sh.uses[c] == sh.uses[d] ==> c == d
  }

  ghost predicate LeasesCounted(s: Sys) {
    && (forall c: nat :: Counted(s.sh.uses, s.sh.cells, s.leases, c))
    && OwnCells(s.sh)
    && (forall l :: 0 <= l < |s.leases| ==> s.leases[l].client < s.created)
  }

  /** At most one change is unfinished: the published one, owned by `holder`. */
  predicate SingleFlight(s: Sys) {
    && (s.holder.Some? <==> s.sh.change.Some?)
    && (s.holder.Some? ==> s.holder.value < |s.pcs|)
    && (s.sh.change.Some? ==> s.sh.change.value < |s.sh.changes|)
    && (forall ch :: 0 <= ch < |s.sh.changes| ==> (s.sh.changes[ch].done <==> s.sh.change != Some(ch)))
    && (forall t :: 0 <= t < |s.pcs| ==> Owned(s.pcs[t]) == if s.holder == Some(t) then s.sh.change else None)
  }

  ghost predicate Unleased(s: Sys, c: nat) {
    OpenOn(s.leases, c) == {}
  }

  predicate StillThere(s: Sys, prior: nat) {
    prior < s.created && (s.sh.closed || s.sh.client == Some(prior))
  }

  /** A drained record stays drained; a live one is still the record of `prior`. */
  ghost predicate Waiting(s: Sys, prior: nat, use: nat) {
    && use < |s.sh.cells|
    && (if s.sh.cells[use].done then Unleased(s, prior) else prior in s.sh.uses && s.sh.uses[prior] == use)
  }

  /** What a goroutine may rely on at each point. */
  ghost predicate PcOk(s: Sys, pc: Pc) {
    match pc
    case Await(_, ch) => ch < |s.sh.changes|
    case CloseAwait(ch) => ch < |s.sh.changes|
    case ReadUse(_, _, prior) => StillThere(s, prior)
    case Drain(_, _, prior, use) => StillThere(s, prior) && Waiting(s, prior, use)
    case ReadInvalid(_, _, prior) => StillThere(s, prior) && Unleased(s, prior)
    case Probe(_, _, prior) => StillThere(s, prior) && Unleased(s, prior)
    case Retire(_, _, prior) => StillThere(s, prior) && Unleased(s, prior)
    case CloseOld(_, _, prior) => prior < s.created && s.sh.client == None && Unleased(s, prior)
    case Create(_, _) => s.sh.client == None
    case Publish(_, _, made) =>
      made < s.created && s.sh.client == None && Unleased(s, made) && (s.sh.closed || Unseen(s, made))
    case Discard(_, _, made) => made < s.created && s.sh.client == None && Unleased(s, made)
    case Settle(_, _, failed) =>
      !failed && !s.sh.closed ==> s.sh.client.Some? && Unleased(s, s.sh.client.value)
    case CloseDrain(_, prior, use) => StillThere(s, prior) && Waiting(s, prior, use)
    case CloseRetire(_, cli) =>
      && (s.sh.closed || s.sh.client == cli)
      && (cli.Some? ==> cli.value < s.created && Unleased(s, cli.value))
    case CloseCall(_, cli) => s.sh.closed && (cli.Some? ==> cli.value < s.created && Unleased(s, cli.value))
    case CloseRecord(_, _) => s.sh.closed
    case ForceCall(_, cli) => s.sh.closed && (cli.Some? ==> cli.value < s.created)
    case ForceRecord(_) => s.sh.closed
    case _ => true
  }

  predicate Unseen(s: Sys, c: nat) {
    c !in s.idleClosed && c !in s.forceClosed && c !in s.invalidated
  }

  /** The published client is open, is the only one that can be granted, and knows whether it was invalidated. */
  predicate ClientOk(s: Sys) {
    && (s.sh.closed ==> s.sh.client == None)
    && (s.sh.client.Some? ==>
          && s.sh.client.value < s.created
          && s.sh.client.value !in s.idleClosed && s.sh.client.value !in s.forceClosed
          && (s.sh.invalid <==> s.sh.client.value in s.invalidated))
    && (forall c :: c in s.idleClosed ==> c < s.created)
    && (forall c :: c in s.forceClosed ==> c < s.created)
    && (forall c :: c in s.invalidated ==> c < s.created)
  }

  /** Clients closed by a refresh or a graceful close carry no lease. */
  ghost predicate ClosedIdle(s: Sys) {
    forall c :: c in s.idleClosed ==> Unleased(s, c)
  }

  ghost predicate InHand(s: Sys, c: nat) {
    exists t :: 0 <= t < |s.pcs| && Held(s.pcs[t]) == Some(c)
  }

  /** Every client ever created is published, in a goroutine's hands, or has been closed. */
  ghost predicate Conserved(s: Sys) {
    forall c :: 0 <= c < s.created ==>
      s.sh.client == Some(c) || c in s.idleClosed || c in s.forceClosed || InHand(s, c)
  }

  ghost predicate Inv(s: Sys) {
    && LeasesCounted(s)
    && SingleFlight(s)
    && ClientOk(s)
    && ClosedIdle(s)
    && Conserved(s)
    && forall t :: 0 <= t < |s.pcs| ==> PcOk(s, s.pcs[t])
  }

  // ---------- The invariant holds over every run ----------

  lemma InitInv(s: Sys)
    requires Init(s)
    ensures Inv(s)
  {
    assert forall c :: OpenOn(s.leases, c) == {};
  }

  /** A step that only moves one goroutine, keeping what it owns and holds. */
  lemma MoveKeeps(s: Sys, t: nat, pc: Pc)
    requires Inv(s) && t < |s.pcs|
    requires Owned(pc) == Owned(s.pcs[t]) && Held(pc) == Held(s.pcs[t]) && PcOk(s, pc)
    ensures Inv(At(s, t, pc))
  {
    var s' := At(s, t, pc);
    forall c: nat | InHand(s, c) ensures InHand(s', c) {
      var h :| 0 <= h < |s.pcs| && Held(s.pcs[h]) == Some(c);
      assert Held(s'.pcs[h]) == Some(c);
    }
    forall h | 0 <= h < |s.pcs| ensures PcOk(s', s'.pcs[h]) {
      assert PcOk(s, s'.pcs[h]);
    }
  }

  lemma StartKeeps(s: Sys, t: nat, pc: Pc)
    requires Inv(s) && Enabled(s, t, Start(pc))
    ensures Inv(At(s, t, pc))
  {
    MoveKeeps(s, t, pc);
  }

  lemma CancelKeeps(s: Sys, t: nat)
    requires Inv(s) && Enabled(s, t, Cancel)
    ensures Inv(StepCancel(s, t))
  {
    ExpiredFits(s, s.pcs[t]);
    MoveKeeps(s, t, Expired(s.pcs[t]));
  }

  lemma ExpiredFits(s: Sys, pc: Pc)
    requires pc.Await? || pc.Drain? || pc.CloseAwait? || pc.CloseDrain?
    ensures Owned(Expired(pc)) == Owned(pc) && Held(Expired(pc)) == Held(pc) && PcOk(s, Expired(pc))
  {
  }

  lemma OpenOnAppend(leases: seq<Lease>, c: nat, d: nat)
    ensures OpenOn(leases + [Lease(c, false)], d) == OpenOn(leases, d) + if c == d then {|leases|} else {}
  {
    var more := leases + [Lease(c, false)];
    forall l | 0 <= l < |leases| ensures more[l] == leases[l] {}
    assert more[|leases|] == Lease(c, false);
  }

  lemma OpenOnRelease(leases: seq<Lease>, l: nat, d: nat)
    requires l < |leases| && !leases[l].released
    ensures OpenOn(leases[l := Lease(leases[l].client, true)], d) == OpenOn(leases, d) - {l}
    ensures l in OpenOn(leases, d) <==> leases[l].client == d
  {
  }

  lemma CellsInRange(s: Sys)
    requires LeasesCounted(s)
    ensures forall d :: d in s.sh.uses ==> s.sh.uses[d] < |s.sh.cells|
  {
    forall d | d in s.sh.uses ensures s.sh.uses[d] < |s.sh.cells| {
      assert Counted(s.sh.uses, s.sh.cells, s.leases, d);
    }
  }

  lemma GrantCountsOne(s: Sys, d: nat)
    requires LeasesCounted(s) && s.sh.client.Some?
    ensures var s' := Grant(s); Counted(s'.sh.uses, s'.sh.cells, s'.leases, d)
  {
    var c := s.sh.client.value;
    OpenOnAppend(s.leases, c, d);
    assert Counted(s.sh.uses, s.sh.cells, s.leases, d) && Counted(s.sh.uses, s.sh.cells, s.leases, c);
    if d == c {
      GrantCountsHolder(s);
    }
  }

  lemma GrantCountsHolder(s: Sys)
    requires s.sh.client.Some? && Counted(s.sh.uses, s.sh.cells, s.leases, s.sh.client.value)
    ensures var s' := Grant(s); Counted(s'.sh.uses, s'.sh.cells, s'.leases, s.sh.client.value)
  {
    var c := s.sh.client.value;
    OpenOnAppend(s.leases, c, c);
    assert |s.leases| !in OpenOn(s.leases, c);
  }

  lemma GrantCounts(s: Sys)
    requires LeasesCounted(s) && s.sh.client.Some? && s.sh.client.value < s.created
    ensures LeasesCounted(Grant(s))
  {
    CellsInRange(s);
    var s' := Grant(s);
    forall d: nat ensures Counted(s'.sh.uses, s'.sh.cells, s'.leases, d) {
      GrantCountsOne(s, d);
    }
    assert Counted(s.sh.uses, s.sh.cells, s.leases, s.sh.client.value);
  }

  lemma ReleaseCounts(s: Sys, l: nat)
    requires LeasesCounted(s) && l < |s.leases| && !s.leases[l].released
    ensures LeasesCounted(StepRelease(s, l))
  {
    var c := s.leases[l].client;
    var s' := StepRelease(s, l);
    OpenOnRelease(s.leases, l, c);
    assert Counted(s.sh.uses, s.sh.cells, s.leases, c);
    forall d: nat ensures Counted(s'.sh.uses, s'.sh.cells, s'.leases, d) {
      OpenOnRelease(s.leases, l, d);
      assert Counted(s.sh.uses, s.sh.cells, s.leases, d);
    }
  }

  lemma StepEnterKeeps(s: Sys, t: nat, who: Caller)
    requires Inv(s) && t < |s.pcs| && s.pcs[t] == Enter(who)
    ensures Inv(StepEnter(s, t, who))
  {
    var s' := StepEnter(s, t, who);
    if s.sh.closed || s.sh.change.Some? {
      MoveKeeps(s, t, s'.pcs[t]);
    } else if who == Acquiring && Grantable(s.sh) {
      GrantKeeps(s, t);
    } else {
      BeginKeeps(s, t, false, s'.pcs[t]);
    }
  }

  /** A lease granted while no change is in flight. */
  lemma GrantKeeps(s: Sys, t: nat)
    requires Inv(s) && t < |s.pcs| && Grantable(s.sh) && Held(s.pcs[t]) == None
    ensures Inv(At(Grant(s), t, Idle))
  {
    var s' := At(Grant(s), t, Idle);
    GrantCounts(s);
    GrantFrame(s, s', t);
  }

  lemma GrantFrame(s: Sys, s': Sys, t: nat)
    requires t < |s.pcs| && s.sh.client.Some? && Inv(s)
    requires s'.leases == s.leases + [Lease(s.sh.client.value, false)]
    requires s'.pcs == s.pcs[t := Idle] && Held(s.pcs[t]) == None
    requires s'.sh.client == s.sh.client && s'.created == s.created
    requires s'.idleClosed == s.idleClosed && s'.forceClosed == s.forceClosed && s'.invalidated == s.invalidated
    requires s'.sh.closed == s.sh.closed && |s'.sh.changes| >= |s.sh.changes|
    requires s.sh.closed == false
    requires forall h :: 0 <= h < |s.pcs| && h != t ==> Owned(s.pcs[h]) == None
    ensures ClosedIdle(s') && Conserved(s')
    ensures forall h :: 0 <= h < |s'.pcs| ==> PcOk(s', s'.pcs[h])
  {
    var c := s.sh.client.value;
    forall d ensures OpenOn(s'.leases, d) == OpenOn(s.leases, d) + if c == d then {|s.leases|} else {} {
      OpenOnAppend(s.leases, c, d);
    }
    ConservedByOthers(s, s', t);
    forall h | 0 <= h < |s'.pcs| ensures PcOk(s', s'.pcs[h]) {
      if h != t { assert PcOk(s, s.pcs[h]); }
    }
  }

  /** Clients in the hands of the other goroutines stay there. */
  lemma ConservedByOthers(s: Sys, s': Sys, t: nat)
    requires t < |s.pcs| && |s'.pcs| == |s.pcs|
    requires forall h :: 0 <= h < |s.pcs| && h != t ==> s'.pcs[h] == s.pcs[h]
    ensures forall c: nat :: InHand(s, c) && Held(s.pcs[t]) != Some(c) ==> InHand(s', c)
    ensures Held(s'.pcs[t]).Some? ==> InHand(s', Held(s'.pcs[t]).value)
  {
    forall c: nat | InHand(s, c) && Held(s.pcs[t]) != Some(c) ensures InHand(s', c) {
      var h :| 0 <= h < |s.pcs| && Held(s.pcs[h]) == Some(c);
      assert Held(s'.pcs[h]) == Some(c);
    }
  }

  lemma BeginKeeps(s: Sys, t: nat, closing: bool, pc: Pc)
    requires Inv(s) && t < |s.pcs| && Held(s.pcs[t]) == None && Owned(s.pcs[t]) == None
    requires !s.sh.closed && s.sh.change.None?
    requires Owned(pc) == Some(|s.sh.changes|) && Held(pc) == None
    requires PcOk(s, pc)
    ensures Inv(At(Begin(s, t, closing), t, pc))
  {
    var s' := At(Begin(s, t, closing), t, pc);
    BeginFlies(s, t, closing, pc);
    ConservedByOthers(s, s', t);
    forall h | 0 <= h < |s'.pcs| ensures PcOk(s', s'.pcs[h]) {
      assert PcOk(s, s'.pcs[h]);
      BeginKeepsPc(s, s', s'.pcs[h]);
    }
  }

  lemma BeginFlies(s: Sys, t: nat, closing: bool, pc: Pc)
    requires SingleFlight(s) && t < |s.pcs| && s.sh.change.None? && Owned(pc) == Some(|s.sh.changes|)
    ensures SingleFlight(At(Begin(s, t, closing), t, pc))
  {
  }

  lemma BeginKeepsPc(s: Sys, s': Sys, pc: Pc)
    requires PcOk(s, pc) && |s'.sh.changes| >= |s.sh.changes|
    requires s'.sh == s.sh.(change := s'.sh.change, changes := s'.sh.changes) && s'.leases == s.leases
    requires s'.created == s.created && s'.invalidated == s.invalidated
    requires s'.idleClosed == s.idleClosed && s'.forceClosed == s.forceClosed
    ensures PcOk(s', pc)
  {
  }

  // Steps that change the shared state on behalf of one goroutine.

  /** What every other goroutine needs: it owns nothing, so it only relies on facts that never go away. */
  lemma OthersKeep(s: Sys, s': Sys, t: nat)
    requires Inv(s) && t < |s.pcs| && |s'.pcs| == |s.pcs|
    requires forall h :: 0 <= h < |s.pcs| && h != t ==> s'.pcs[h] == s.pcs[h] && Owned(s.pcs[h]) == None
    requires |s'.sh.changes| >= |s.sh.changes| && s'.created >= s.created && (s.sh.closed ==> s'.sh.closed)
    ensures forall h :: 0 <= h < |s.pcs| && h != t ==> PcOk(s', s'.pcs[h])
  {
    forall h | 0 <= h < |s.pcs| && h != t ensures PcOk(s', s'.pcs[h]) {
      assert PcOk(s, s.pcs[h]);
    }
  }

  /** A client the acting goroutine or the shell gave up is still accounted for. */
  predicate HandsOn(s: Sys, s': Sys, t: nat, c: nat)
    requires t < |s.pcs| && t < |s'.pcs|
  {
    (s.sh.client == Some(c) || Held(s.pcs[t]) == Some(c) || c >= s.created) ==>
      s'.sh.client == Some(c) || c in s'.idleClosed || c in s'.forceClosed || Held(s'.pcs[t]) == Some(c)
  }

  /** A step of `t` that touches neither leases nor changes in flight. */
  ghost predicate LocalStep(s: Sys, s': Sys, t: nat) {
    && t < |s.pcs| && |s'.pcs| == |s.pcs|
    && (forall h :: 0 <= h < |s.pcs| && h != t ==> s'.pcs[h] == s.pcs[h])
    && s'.leases == s.leases && s'.sh.uses == s.sh.uses && s'.sh.cells == s.sh.cells
    && s'.sh.change == s.sh.change && s'.sh.changes == s.sh.changes && s'.holder == s.holder
    && Owned(s'.pcs[t]) == Owned(s.pcs[t])
    && s'.created >= s.created && (s.sh.closed ==> s'.sh.closed)
    && s.idleClosed <= s'.idleClosed && s.forceClosed <= s'.forceClosed
    && (forall c: nat :: c < s'.created ==> HandsOn(s, s', t, c))
  }

  lemma LocalConserves(s: Sys, s': Sys, t: nat)
    requires Conserved(s) && LocalStep(s, s', t)
    ensures Conserved(s')
  {
    ConservedByOthers(s, s', t);
    forall c: nat | c < s'.created
      ensures s'.sh.client == Some(c) || c in s'.idleClosed || c in s'.forceClosed || InHand(s', c)
    {
      assert HandsOn(s, s', t, c);
    }
  }

  lemma LocalKeeps(s: Sys, s': Sys, t: nat)
    requires Inv(s) && LocalStep(s, s', t) && Owned(s.pcs[t]).Some?
    requires ClientOk(s') && ClosedIdle(s') && PcOk(s', s'.pcs[t])
    ensures Inv(s')
  {
    LocalConserves(s, s', t);
    OthersKeep(s, s', t);
    forall h | 0 <= h < |s'.pcs| ensures PcOk(s', s'.pcs[h]) {}
  }

  lemma StepDrainOldKeeps(s: Sys, t: nat, ok: bool)
    requires Inv(s) && Enabled(s, t, Go(ok))
    requires Draining(s.pcs[t])
    ensures Inv(StepDrainOld(s, t, s.pcs[t], ok))
  {
    assert PcOk(s, s.pcs[t]);
    if s.pcs[t].Retire? {
      RetireKeeps(s, t, ok);
    } else {
      DrainFits(s, t, ok);
      MoveKeeps(s, t, StepDrainOld(s, t, s.pcs[t], ok).pcs[t]);
    }
  }

  lemma RetireKeeps(s: Sys, t: nat, ok: bool)
    requires Inv(s) && t < |s.pcs| && s.pcs[t].Retire?
    ensures Inv(StepDrainOld(s, t, s.pcs[t], ok))
  {
    assert PcOk(s, s.pcs[t]);
    LocalKeeps(s, StepDrainOld(s, t, s.pcs[t], ok), t);
  }

  lemma DrainFits(s: Sys, t: nat, ok: bool)
    requires LeasesCounted(s) && Enabled(s, t, Go(ok)) && PcOk(s, s.pcs[t])
    requires Draining(s.pcs[t]) && !s.pcs[t].Retire?
    ensures var pc, s' := s.pcs[t], StepDrainOld(s, t, s.pcs[t], ok);
      && s' == At(s, t, s'.pcs[t])
      && Owned(s'.pcs[t]) == Owned(pc) && Held(s'.pcs[t]) == Held(pc) && PcOk(s, s'.pcs[t])
  {
    if s.pcs[t].ReadUse? { assert Counted(s.sh.uses, s.sh.cells, s.leases, s.pcs[t].prior); }
  }

  lemma CloseOldKeeps(s: Sys, t: nat, ok: bool)
    requires Inv(s) && t < |s.pcs| && s.pcs[t].CloseOld?
    ensures Inv(StepReplace(s, t, s.pcs[t], ok))
  {
    assert PcOk(s, s.pcs[t]);
    LocalKeeps(s, StepReplace(s, t, s.pcs[t], ok), t);
  }

  lemma CreateKeeps(s: Sys, t: nat, ok: bool)
    requires Inv(s) && t < |s.pcs| && s.pcs[t].Create?
    ensures Inv(StepReplace(s, t, s.pcs[t], ok))
  {
    CreateIsLocal(s, t, ok);
    CreateFits(s, t, ok);
    LocalKeeps(s, StepReplace(s, t, s.pcs[t], ok), t);
  }

  lemma CreateIsLocal(s: Sys, t: nat, ok: bool)
    requires t < |s.pcs| && s.pcs[t].Create? && PcOk(s, s.pcs[t])
    ensures LocalStep(s, StepReplace(s, t, s.pcs[t], ok), t)
  {
  }

  lemma CreateFits(s: Sys, t: nat, ok: bool)
    requires LeasesCounted(s) && ClientOk(s) && ClosedIdle(s) && t < |s.pcs| && s.pcs[t].Create? && PcOk(s, s.pcs[t])
    ensures var s' := StepReplace(s, t, s.pcs[t], ok); ClientOk(s') && ClosedIdle(s') && PcOk(s', s'.pcs[t])
  {
    FreshUnleased(s);
  }

  lemma PublishKeeps(s: Sys, t: nat, ok: bool)
    requires Inv(s) && t < |s.pcs| && s.pcs[t].Publish?
    ensures Inv(StepReplace(s, t, s.pcs[t], ok))
  {
    PublishIsLocal(s, t, ok);
    PublishFits(s, t, ok);
    LocalKeeps(s, StepReplace(s, t, s.pcs[t], ok), t);
  }

  lemma PublishIsLocal(s: Sys, t: nat, ok: bool)
    requires t < |s.pcs| && s.pcs[t].Publish? && PcOk(s, s.pcs[t])
    ensures LocalStep(s, StepReplace(s, t, s.pcs[t], ok), t)
  {
  }

  lemma PublishFits(s: Sys, t: nat, ok: bool)
    requires ClientOk(s) && ClosedIdle(s) && t < |s.pcs| && s.pcs[t].Publish? && PcOk(s, s.pcs[t])
    ensures var s' := StepReplace(s, t, s.pcs[t], ok); ClientOk(s') && ClosedIdle(s') && PcOk(s', s'.pcs[t])
  {
  }

  lemma DiscardKeeps(s: Sys, t: nat, ok: bool)
    requires Inv(s) && t < |s.pcs| && s.pcs[t].Discard?
    ensures Inv(StepReplace(s, t, s.pcs[t], ok))
  {
    assert PcOk(s, s.pcs[t]);
    LocalKeeps(s, StepReplace(s, t, s.pcs[t], ok), t);
  }

  lemma StepReplaceKeeps(s: Sys, t: nat, ok: bool)
    requires Inv(s) && t < |s.pcs| && Replacing(s.pcs[t])
    ensures Inv(StepReplace(s, t, s.pcs[t], ok))
  {
    if s.pcs[t].CloseOld? {
      CloseOldKeeps(s, t, ok);
    } else if s.pcs[t].Create? {
      CreateKeeps(s, t, ok);
    } else if s.pcs[t].Publish? {
      PublishKeeps(s, t, ok);
    } else {
      DiscardKeeps(s, t, ok);
    }
  }

  lemma FreshUnleased(s: Sys)
    requires LeasesCounted(s)
    ensures Unleased(s, s.created)
  {
  }

  lemma EndKeepsSingleFlight(s: Sys, t: nat, ch: nat, failed: bool)
    requires SingleFlight(s) && t < |s.pcs| && Owned(s.pcs[t]) == Some(ch)
    ensures ch < |s.sh.changes| && s.sh.change == Some(ch) && s.holder == Some(t)
    ensures SingleFlight(At(End(s, ch, failed), t, Idle))
  {
  }

  lemma EndKeeps(s: Sys, t: nat, ch: nat, failed: bool)
    requires Inv(s) && t < |s.pcs| && Owned(s.pcs[t]) == Some(ch) && Held(s.pcs[t]) == None
    ensures ch < |s.sh.changes| && Inv(At(End(s, ch, failed), t, Idle))
  {
    EndKeepsSingleFlight(s, t, ch, failed);
    var s' := At(End(s, ch, failed), t, Idle);
    OthersKeep(s, s', t);
    ConservedByOthers(s, s', t);
  }

  lemma SettleGrantKeeps(s: Sys, t: nat, ch: nat)
    requires Inv(s) && t < |s.pcs| && s.pcs[t] == Settle(ch, Acquiring, false)
    requires !s.sh.closed && s.sh.client.Some? && ch < |s.sh.changes|
    ensures Inv(At(End(Grant(s), ch, false), t, Idle))
  {
    EndKeepsSingleFlight(s, t, ch, false);
    GrantCounts(s);
    GrantEnds(s, t, ch);
    GrantEndsFrame(s, t, ch);
  }

  lemma GrantEndsFrame(s: Sys, t: nat, ch: nat)
    requires Inv(s) && t < |s.pcs| && s.pcs[t] == Settle(ch, Acquiring, false) && s.holder == Some(t)
    requires !s.sh.closed && s.sh.client.Some? && ch < |s.sh.changes|
    ensures var s' := At(End(Grant(s), ch, false), t, Idle);
      ClosedIdle(s') && Conserved(s') && forall h :: 0 <= h < |s'.pcs| ==> PcOk(s', s'.pcs[h])
  {
    GrantFrame(s, At(End(Grant(s), ch, false), t, Idle), t);
  }

  /** A lease does not touch the change, so the change ends as without it. */
  lemma GrantEnds(s: Sys, t: nat, ch: nat)
    requires LeasesCounted(s) && ClientOk(s) && SingleFlight(s) && t < |s.pcs| && Owned(s.pcs[t]) == Some(ch)
    requires s.sh.client.Some? && ch < |s.sh.changes| && LeasesCounted(Grant(s))
    requires SingleFlight(At(End(s, ch, false), t, Idle))
    ensures var s' := At(End(Grant(s), ch, false), t, Idle); LeasesCounted(s') && ClientOk(s') && SingleFlight(s')
  {
    var g := Grant(s);
    assert g.sh.change == s.sh.change && g.sh.changes == s.sh.changes && g.sh.client == s.sh.client;
    assert g.sh.closed == s.sh.closed && g.sh.invalid == s.sh.invalid && g.pcs == s.pcs && g.holder == s.holder;
  }

  lemma StepSettleKeeps(s: Sys, t: nat, ch: nat, who: Caller, failed: bool)
    requires Inv(s) && t < |s.pcs| && s.pcs[t] == Settle(ch, who, failed) && ch < |s.sh.changes|
    ensures Inv(StepSettle(s, t, ch, who, failed))
  {
    if who == Ensuring {
      MoveKeeps(s, t, Finish(ch, failed || s.sh.closed));
    } else if s.sh.closed || failed || s.sh.client.None? {
      EndKeeps(s, t, ch, true);
    } else {
      SettleGrantKeeps(s, t, ch);
    }
  }

  lemma StepCloseKeeps(s: Sys, t: nat, ok: bool)
    requires Inv(s) && Enabled(s, t, Go(ok))
    requires s.pcs[t].CloseEnter? || s.pcs[t].CloseAwait? || s.pcs[t].CloseDrain?
    ensures Inv(StepClose(s, t, s.pcs[t], ok))
  {
    var pc := s.pcs[t];
    assert PcOk(s, pc);
    if pc.CloseEnter? && !s.sh.closed && s.sh.change.None? {
      CloseBeginKeeps(s, t, ok);
    } else {
      CloseFits(s, t, ok);
      MoveKeeps(s, t, StepClose(s, t, pc, ok).pcs[t]);
    }
  }

  lemma CloseFits(s: Sys, t: nat, ok: bool)
    requires SingleFlight(s) && Enabled(s, t, Go(ok)) && PcOk(s, s.pcs[t])
    requires s.pcs[t].CloseEnter? ==> s.sh.closed || s.sh.change.Some?
    requires s.pcs[t].CloseEnter? || s.pcs[t].CloseAwait? || s.pcs[t].CloseDrain?
    ensures var pc, s' := s.pcs[t], StepClose(s, t, s.pcs[t], ok);
      && s' == At(s, t, s'.pcs[t])
      && Owned(s'.pcs[t]) == Owned(pc) && Held(s'.pcs[t]) == Held(pc) && PcOk(s, s'.pcs[t])
  {
  }

  lemma CloseBeginKeeps(s: Sys, t: nat, ok: bool)
    requires Inv(s) && t < |s.pcs| && s.pcs[t].CloseEnter? && !s.sh.closed && s.sh.change.None?
    ensures Inv(StepClose(s, t, s.pcs[t], ok))
  {
    if s.sh.client.Some? { assert Counted(s.sh.uses, s.sh.cells, s.leases, s.sh.client.value); }
    BeginKeeps(s, t, true, StepClose(s, t, s.pcs[t], ok).pcs[t]);
  }

  lemma CloseRetireKeeps(s: Sys, t: nat, ok: bool)
    requires Inv(s) && t < |s.pcs| && s.pcs[t].CloseRetire?
    ensures Inv(StepClose(s, t, s.pcs[t], ok))
  {
    assert PcOk(s, s.pcs[t]);
    LocalKeeps(s, StepClose(s, t, s.pcs[t], ok), t);
  }

  lemma CloseCallKeeps(s: Sys, t: nat, ok: bool)
    requires Inv(s) && t < |s.pcs| && s.pcs[t].CloseCall?
    ensures Inv(StepClose(s, t, s.pcs[t], ok))
  {
    CloseCallIsLocal(s, t, ok);
    CloseCallFits(s, t, ok);
    LocalKeeps(s, StepClose(s, t, s.pcs[t], ok), t);
  }

  lemma CloseCallIsLocal(s: Sys, t: nat, ok: bool)
    requires t < |s.pcs| && s.pcs[t].CloseCall? && PcOk(s, s.pcs[t])
    ensures LocalStep(s, StepClose(s, t, s.pcs[t], ok), t)
  {
  }

  lemma CloseCallFits(s: Sys, t: nat, ok: bool)
    requires ClientOk(s) && ClosedIdle(s) && t < |s.pcs| && s.pcs[t].CloseCall? && PcOk(s, s.pcs[t])
    ensures var s' := StepClose(s, t, s.pcs[t], ok); ClientOk(s') && ClosedIdle(s') && PcOk(s', s'.pcs[t])
  {
  }

  lemma CloseRecordKeeps(s: Sys, t: nat, ok: bool)
    requires Inv(s) && t < |s.pcs| && s.pcs[t].CloseRecord?
    ensures Inv(StepClose(s, t, s.pcs[t], ok))
  {
    assert PcOk(s, s.pcs[t]);
    LocalKeeps(s, StepClose(s, t, s.pcs[t], ok), t);
  }

  /** Forced closing may interrupt the owner of a change, whose assumptions all survive termination. */
  lemma StepForceKeeps(s: Sys, t: nat)
    requires Inv(s) && t < |s.pcs| && Forcing(s.pcs[t])
    ensures Inv(StepForce(s, t, s.pcs[t]))
  {
    ForceIsLocal(s, t);
    LocalConserves(s, StepForce(s, t, s.pcs[t]), t);
    ForcePcsOk(s, t);
    ForceLedgerOk(s, t);
    ForceSingleFlight(s, t);
  }

  lemma ForceLedgerOk(s: Sys, t: nat)
    requires Inv(s) && t < |s.pcs| && Forcing(s.pcs[t])
    ensures var s' := StepForce(s, t, s.pcs[t]); LeasesCounted(s') && ClosedIdle(s') && ClientOk(s')
  {
    assert PcOk(s, s.pcs[t]);
  }

  lemma ForceSingleFlight(s: Sys, t: nat)
    requires SingleFlight(s) && t < |s.pcs| && Forcing(s.pcs[t])
    ensures SingleFlight(StepForce(s, t, s.pcs[t]))
  {
    ForceKeepsOwner(s, t);
    SameOwnersFly(s, StepForce(s, t, s.pcs[t]), t);
  }

  lemma ForceKeepsOwner(s: Sys, t: nat)
    requires t < |s.pcs| && Forcing(s.pcs[t])
    ensures var s' := StepForce(s, t, s.pcs[t]);
      && s'.pcs == s.pcs[t := s'.pcs[t]] && Owned(s'.pcs[t]) == Owned(s.pcs[t])
      && s'.sh.change == s.sh.change && s'.sh.changes == s.sh.changes && s'.holder == s.holder
  {
  }

  lemma SameOwnersFly(s: Sys, s': Sys, t: nat)
    requires SingleFlight(s) && t < |s.pcs| && t < |s'.pcs| && s'.pcs == s.pcs[t := s'.pcs[t]]
    requires Owned(s'.pcs[t]) == Owned(s.pcs[t])
    requires s'.sh.change == s.sh.change && s'.sh.changes == s.sh.changes && s'.holder == s.holder
    ensures SingleFlight(s')
  {
  }

  lemma ForceIsLocal(s: Sys, t: nat)
    requires Inv(s) && t < |s.pcs| && Forcing(s.pcs[t])
    ensures LocalStep(s, StepForce(s, t, s.pcs[t]), t)
  {
    ForceKeepsOwner(s, t);
    forall c: nat | c < s.created ensures HandsOn(s, StepForce(s, t, s.pcs[t]), t, c) {
      ForceHandsOn(s, t, c);
    }
  }

  lemma ForceHandsOn(s: Sys, t: nat, c: nat)
    requires ClientOk(s) && t < |s.pcs| && Forcing(s.pcs[t]) && PcOk(s, s.pcs[t]) && c < s.created
    ensures HandsOn(s, StepForce(s, t, s.pcs[t]), t, c)
  {
  }

  lemma ForcePcsOk(s: Sys, t: nat)
    requires Inv(s) && t < |s.pcs| && Forcing(s.pcs[t])
    ensures var s' := StepForce(s, t, s.pcs[t]); forall h :: 0 <= h < |s'.pcs| ==> PcOk(s', s'.pcs[h])
  {
    var s' := StepForce(s, t, s.pcs[t]);
    assert PcOk(s, s.pcs[t]);
    ForceTerminates(s, t);
    forall h | 0 <= h < |s'.pcs| ensures PcOk(s', s'.pcs[h]) {
      assert PcOk(s, s.pcs[h]);
      if h != t { TerminationKeeps(s, s', s.pcs[h]); }
    }
  }

  lemma ForceTerminates(s: Sys, t: nat)
    requires ClientOk(s) && t < |s.pcs| && Forcing(s.pcs[t]) && PcOk(s, s.pcs[t])
    ensures var s' := StepForce(s, t, s.pcs[t]);
      && s'.leases == s.leases && s'.created == s.created && s'.sh.closed && s'.sh.client == None
      && s'.sh.uses == s.sh.uses && s'.sh.cells == s.sh.cells && s'.sh.changes == s.sh.changes
      && s'.pcs == s.pcs[t := s'.pcs[t]] && PcOk(s', s'.pcs[t])
  {
  }

  lemma TerminationKeeps(s: Sys, s': Sys, pc: Pc)
    requires PcOk(s, pc) && s'.leases == s.leases && s'.created == s.created
    requires s'.sh.uses == s.sh.uses && s'.sh.cells == s.sh.cells && s'.sh.changes == s.sh.changes
    requires s'.sh.closed
    requires s'.sh.client == None
    ensures PcOk(s', pc)
  {
  }

  lemma StepReleaseKeeps(s: Sys, l: nat)
    requires Inv(s) && l < |s.leases| && !s.leases[l].released
    ensures Inv(StepRelease(s, l))
  {
    var s' := StepRelease(s, l);
    ReleaseCounts(s, l);
    ReleaseKeepsUnleased(s, l);
    SameHandsConserve(s, s');
    assert s'.sh.change == s.sh.change && s'.sh.changes == s.sh.changes && s'.sh.client == s.sh.client;
    ReleaseKeepsPcs(s, l);
  }

  lemma ReleaseKeepsUnleased(s: Sys, l: nat)
    requires l < |s.leases| && !s.leases[l].released && ClosedIdle(s)
    ensures ClosedIdle(StepRelease(s, l))
  {
    forall d: nat | Unleased(s, d) ensures Unleased(StepRelease(s, l), d) {
      OpenOnRelease(s.leases, l, d);
    }
  }

  lemma ReleaseKeepsPcs(s: Sys, l: nat)
    requires LeasesCounted(s) && l < |s.leases| && !s.leases[l].released
    requires forall h :: 0 <= h < |s.pcs| ==> PcOk(s, s.pcs[h])
    ensures var s' := StepRelease(s, l); forall h :: 0 <= h < |s'.pcs| ==> PcOk(s', s'.pcs[h])
  {
    forall h | 0 <= h < |s.pcs| ensures PcOk(StepRelease(s, l), s.pcs[h]) {
      ReleaseKeepsPc(s, l, s.pcs[h]);
    }
  }

  /** A step that moves nobody and publishes, creates and closes nothing. */
  lemma SameHandsConserve(s: Sys, s': Sys)
    requires Conserved(s) && s'.pcs == s.pcs && s'.created == s.created && s'.sh.client == s.sh.client
    requires s'.idleClosed == s.idleClosed && s'.forceClosed == s.forceClosed
    ensures Conserved(s')
  {
    forall c: nat | InHand(s, c) ensures InHand(s', c) {
      var h :| 0 <= h < |s.pcs| && Held(s.pcs[h]) == Some(c);
      assert Held(s'.pcs[h]) == Some(c);
    }
  }

  lemma ReleaseKeepsWaiting(s: Sys, l: nat, prior: nat, use: nat)
    requires LeasesCounted(s) && l < |s.leases| && !s.leases[l].released && Waiting(s, prior, use)
    ensures Waiting(StepRelease(s, l), prior, use)
  {
    var c := s.leases[l].client;
    OpenOnRelease(s.leases, l, c);
    OpenOnRelease(s.leases, l, prior);
    assert Counted(s.sh.uses, s.sh.cells, s.leases, c);
    assert Counted(s.sh.uses, s.sh.cells, s.leases, prior);
    if c == prior && |OpenOn(s.leases, c)| == 1 {
      assert |OpenOn(s.leases, c) - {l}| == 0;
    }
  }

  lemma ReleaseKeepsPc(s: Sys, l: nat, pc: Pc)
    requires LeasesCounted(s) && l < |s.leases| && !s.leases[l].released && PcOk(s, pc)
    ensures PcOk(StepRelease(s, l), pc)
  {
    if pc.Drain? || pc.CloseDrain? {
      ReleaseKeepsWaiting(s, l, pc.prior, pc.use);
    } else {
      var s' := StepRelease(s, l);
      forall d: nat ensures OpenOn(s'.leases, d) <= OpenOn(s.leases, d) {
        OpenOnRelease(s.leases, l, d);
      }
    }
  }

  lemma StepInvalidateKeeps(s: Sys, c: nat)
    requires Inv(s) && c < s.created
    ensures Inv(StepInvalidate(s, c))
  {
    var s' := StepInvalidate(s, c);
    SameHandsConserve(s, s');
    forall h | 0 <= h < |s.pcs| ensures PcOk(s', s'.pcs[h]) {
      assert PcOk(s, s.pcs[h]);
    }
  }

  lemma AwaitKeeps(s: Sys, t: nat)
    requires Inv(s) && Enabled(s, t, Go(true)) && s.pcs[t].Await?
    ensures Inv(StepAwait(s, t, s.pcs[t].who, s.pcs[t].ch))
  {
    MoveKeeps(s, t, Awoken(s.pcs[t].who, s.sh.changes[s.pcs[t].ch]));
  }

  lemma RecheckKeeps(s: Sys, t: nat)
    requires Inv(s) && t < |s.pcs| && s.pcs[t].Recheck?
    ensures Inv(StepRecheck(s, t))
  {
    if Grantable(s.sh) { GrantKeeps(s, t); } else { MoveKeeps(s, t, Enter(Acquiring)); }
  }

  lemma StepAcquireKeeps(s: Sys, t: nat, ok: bool)
    requires Inv(s) && Enabled(s, t, Go(ok))
    requires var pc := s.pcs[t]; !Draining(pc) && !Replacing(pc) && !Closing(pc) && !Forcing(pc)
    ensures Inv(StepGo(s, t, ok))
  {
    match s.pcs[t]
    case Enter(who) => StepEnterKeeps(s, t, who);
    case Await(who, ch) => AwaitKeeps(s, t);
    case Recheck => RecheckKeeps(s, t);
    case Settle(ch, who, failed) => StepSettleKeeps(s, t, ch, who, failed);
    case Finish(ch, failed) => EndKeeps(s, t, ch, failed);
  }

  lemma StepGoKeeps(s: Sys, t: nat, ok: bool)
    requires Inv(s) && Enabled(s, t, Go(ok))
    ensures Inv(StepGo(s, t, ok))
  {
    var pc := s.pcs[t];
    if Draining(pc) {
      StepDrainOldKeeps(s, t, ok);
    } else if Replacing(pc) {
      StepReplaceKeeps(s, t, ok);
    } else if Closing(pc) {
      if pc.CloseRetire? {
        CloseRetireKeeps(s, t, ok);
      } else if pc.CloseCall? {
        CloseCallKeeps(s, t, ok);
      } else if pc.CloseRecord? {
        CloseRecordKeeps(s, t, ok);
      } else {
        StepCloseKeeps(s, t, ok);
      }
    } else if Forcing(pc) {
      StepForceKeeps(s, t);
    } else {
      StepAcquireKeeps(s, t, ok);
    }
  }

  lemma StepKeeps(s: Sys, t: nat, a: Act)
    requires Inv(s) && Enabled(s, t, a)
    ensures Inv(After(s, t, a))
  {
    match a
    case Start(pc) => StartKeeps(s, t, pc);
    case Go(ok) => StepGoKeeps(s, t, ok);
    case Cancel => CancelKeeps(s, t);
    case Release(l) => StepReleaseKeeps(s, l);
    case Invalidate(c) => StepInvalidateKeeps(s, c);
  }

  lemma EventKeeps(s: Sys, e: Event, s': Sys)
    requires Inv(s) && Enacts(s, e, s')
    ensures Inv(s')
  {
    StepKeeps(s, e.thread, e.act);
  }

  lemma {:induction false} InvAt(states: seq<Sys>, events: seq<Event>, i: nat)
    requires Run(states, events) && i < |states|
    ensures Inv(states[i])
  {
    if i == 0 {
      InitInv(states[0]);
    } else {
      InvAt(states, events, i - 1);
      EventKeeps(states[i - 1], events[i - 1], states[i]);
    }
  }
}
