/**
 What decides a refresh of the leased client: which outcomes of probes, closes and connects make a change succeed or
 fail, and what the caller that began it gets. The reasons are read off the events of a run.
 */
module ClientRefresh {
  import opened Prelude
  import opened ClientLease
  import opened ClientLeaseInvariant

  // ---------- What happened, as the events tell it ----------

  predicate ActsAt(s: Sys, e: Event, act: Act) {
    e.thread < |s.pcs| && e.act == act
  }

  /** In change `ch` client `c` is probed, and answers or does not. */
  predicate Probes(s: Sys, e: Event, ch: nat, c: nat, ok: bool) {
    ActsAt(s, e, Go(ok)) && var pc := s.pcs[e.thread]; pc.Probe? && pc.ch == ch && pc.prior == c
  }

  /** In change `ch` a new client is connected; it gets the next number. */
  predicate Creates(s: Sys, e: Event, ch: nat, c: nat) {
    ActsAt(s, e, Go(true)) && var pc := s.pcs[e.thread]; pc.Create? && pc.ch == ch && c == s.created
  }

  /** In change `ch` the published client `c` is found to have been invalidated. */
  predicate SeesInvalid(s: Sys, e: Event, ch: nat, c: nat) {
    && e.thread < |s.pcs| && e.act.Go?
    && var pc := s.pcs[e.thread];
      pc.ReadInvalid? && pc.ch == ch && pc.prior == c && s.sh.client == Some(c) && s.sh.invalid
  }

  /** In change `ch` the context of a wait for leases expires, or closing or connecting a client fails. */
  predicate Fails(s: Sys, e: Event, ch: nat) {
    && e.thread < |s.pcs|
    && var pc := s.pcs[e.thread];
      || (e.act == Go(false) && (pc.CloseOld? || pc.Create? || (pc.CloseCall? && pc.cli.Some?)) && pc.ch == ch)
      || (e.act == Cancel && (pc.Drain? || pc.CloseDrain?) && pc.ch == ch)
  }

  /** The context of a close expires, so that the client is closed by force. */
  predicate Forces(s: Sys, e: Event) {
    e.thread < |s.pcs| && e.act == Cancel && (s.pcs[e.thread].CloseAwait? || s.pcs[e.thread].CloseDrain?)
  }

  /** The caller whose refresh is over finds the shell open. */
  predicate ChecksOpen(s: Sys, e: Event, ch: nat) {
    && e.thread < |s.pcs| && e.act.Go? && !s.sh.closed
    && var pc := s.pcs[e.thread]; pc.Settle? && pc.ch == ch
  }

  /** Change `ch` is begun by acquireClient. */
  predicate AcquireBegins(s: Sys, e: Event, s': Sys, ch: nat) {
    && e.thread < |s.pcs| && s.pcs[e.thread] == Enter(Acquiring)
    && ch == |s.sh.changes| && s'.sh.change == Some(ch) && |s'.sh.changes| == ch + 1
  }

  /** All of this over a run: clients vouched for and condemned in a change, and changes that met a failure. */
  datatype Lore = Lore(
    vouched: iset<(nat, nat)>, condemned: iset<(nat, nat)>, troubled: iset<nat>, acquired: iset<nat>,
    checked: iset<nat>, forced: bool)

  ghost predicate Learned(l: Lore, s: Sys, e: Event, s': Sys, l': Lore) {
    && (forall ch: nat, c: nat :: (ch, c) in l'.vouched <==>
          (ch, c) in l.vouched || Probes(s, e, ch, c, true) || Creates(s, e, ch, c))
    && (forall ch: nat, c: nat :: (ch, c) in l'.condemned <==>
          (ch, c) in l.condemned || Probes(s, e, ch, c, false) || SeesInvalid(s, e, ch, c))
    && (forall ch: nat :: ch in l'.troubled <==> ch in l.troubled || Fails(s, e, ch))
    && (forall ch: nat :: ch in l'.acquired <==> ch in l.acquired || AcquireBegins(s, e, s', ch))
    && (forall ch: nat :: ch in l'.checked <==> ch in l.checked || ChecksOpen(s, e, ch))
    && (l'.forced <==> l.forced || Forces(s, e))
  }

  // ---------- Invariant ----------

  predicate OfClosing(s: Sys, ch: nat) {
    ch < |s.sh.changes| && s.sh.changes[ch].closing
  }

  /** A refresh on its way, by the caller that began it, and nothing has failed. */
  predicate Calm(s: Sys, l: Lore, ch: nat, who: Caller) {
    && ch < |s.sh.changes| && !s.sh.changes[ch].closing && ch !in l.troubled
    && (ch in l.acquired <==> who == Acquiring)
  }

  /** What a refresh that is over leaves. */
  predicate Outcome(s: Sys, l: Lore, ch: nat, failed: bool) {
    && ch < |s.sh.changes| && !s.sh.changes[ch].closing
    && (failed ==> ch in l.troubled || s.sh.closed)
    && (!failed ==>
          ch !in l.troubled && (s.sh.closed || (s.sh.client.Some? && (ch, s.sh.client.value) in l.vouched)))
  }

  predicate PcTold(s: Sys, l: Lore, pc: Pc) {
    match pc
    case ReadUse(ch, who, _) => Calm(s, l, ch, who)
    case Drain(ch, who, _, _) => Calm(s, l, ch, who)
    case ReadInvalid(ch, who, _) => Calm(s, l, ch, who)
    case Probe(ch, who, _) => Calm(s, l, ch, who)
    case Retire(ch, who, prior) => Calm(s, l, ch, who) && (ch, prior) in l.condemned
    case CloseOld(ch, who, _) => Calm(s, l, ch, who)
    case Create(ch, who) => Calm(s, l, ch, who)
    case Publish(ch, who, made) => Calm(s, l, ch, who) && (ch, made) in l.vouched
    case Discard(ch, who, _) => Calm(s, l, ch, who) && s.sh.closed
    case Settle(ch, who, failed) => Outcome(s, l, ch, failed) && (ch in l.acquired <==> who == Acquiring)
    case Finish(ch, failed) =>
      if OfClosing(s, ch) then (failed <==> ch in l.troubled) && (!l.forced ==> s.sh.closeFailed == failed)
      else Outcome(s, l, ch, failed) && ch !in l.acquired && (!failed ==> ch in l.checked)
    case CloseDrain(ch, _, _) => OfClosing(s, ch) && ch !in l.troubled && (s.sh.closed ==> s.sh.closeFailed)
    case CloseRetire(ch, _) => OfClosing(s, ch) && ch !in l.troubled
    case CloseCall(ch, _) => OfClosing(s, ch) && ch !in l.troubled
    case CloseRecord(ch, failed) => OfClosing(s, ch) && (failed <==> ch in l.troubled)
    case ForceEnter(own) =>
      l.forced && (own.Some? ==>
        OfClosing(s, own.value) && own.value in l.troubled && (s.sh.closed ==> s.sh.closeFailed))
    case ForceCall(own, _) => l.forced && (own.Some? ==> OfClosing(s, own.value) && own.value in l.troubled)
    case ForceRecord(own) => l.forced && (own.Some? ==> OfClosing(s, own.value) && own.value in l.troubled)
    case _ => true
  }

  ghost predicate Told(s: Sys, l: Lore) {
    && (forall t :: 0 <= t < |s.pcs| ==> PcTold(s, l, s.pcs[t]))
    && (forall ch :: ch in l.troubled || ch in l.acquired ==> ch < |s.sh.changes|)
    && (forall ch :: ch in l.acquired ==> !OfClosing(s, ch))
  }

  // ---------- The invariant is kept ----------

  /** What a step of somebody else does to what the owner of a change relies on. */
  ghost predicate Surroundings(s: Sys, l: Lore, s': Sys, l': Lore, ch: nat) {
    && ch < |s.sh.changes| <= |s'.sh.changes|
    && s'.sh.changes[ch].closing == s.sh.changes[ch].closing
    && (s.sh.closed ==> s'.sh.closed)
    && (s'.sh.client == s.sh.client || s'.sh.closed)
    && (s'.sh.closed && (s.sh.closed ==> s.sh.closeFailed) ==> s'.sh.closeFailed)
    && l.vouched <= l'.vouched && l.condemned <= l'.condemned && l.checked <= l'.checked
    && (ch in l'.troubled <==> ch in l.troubled) && (ch in l'.acquired <==> ch in l.acquired)
    && (l.forced ==> l'.forced) && (!l'.forced ==> s'.sh.closeFailed == s.sh.closeFailed)
  }

  lemma OwnerIsTold(s: Sys, l: Lore, s': Sys, l': Lore, pc: Pc)
    requires PcTold(s, l, pc) && Owned(pc).Some? && Surroundings(s, l, s', l', Owned(pc).value)
    ensures PcTold(s', l', pc)
  {
  }

  lemma OthersAreTold(s: Sys, l: Lore, pc: Pc)
    requires Owned(pc).None? && (Forcing(pc) ==> l.forced)
    ensures PcTold(s, l, pc)
  {
  }

  /** A step of a goroutine that owns no change, or of no goroutine, leaves the owner's surroundings as they are. */
  lemma OutsiderSteps(s: Sys, e: Event, s': Sys, l: Lore, l': Lore, ch: nat)
    requires SingleFlight(s) && Enacts(s, e, s') && Learned(l, s, e, s', l') && s.sh.change == Some(ch)
    requires e.act.Release? || e.act.Invalidate? || Owned(s.pcs[e.thread]).None?
    requires PcTold(s, l, s.pcs[e.thread])
    ensures Surroundings(s, l, s', l', ch)
  {
    LoreGrows(l, s, e, s', l');
    OutsiderTellsNothing(s, e, s', ch);
    OutsiderKeeps(s, e, s', ch);
    assert Forcing(s.pcs[e.thread]) ==> l.forced;
  }

  lemma OutsiderKeeps(s: Sys, e: Event, s': Sys, ch: nat)
    requires SingleFlight(s) && Enacts(s, e, s') && s.sh.change == Some(ch)
    requires e.act.Release? || e.act.Invalidate? || Owned(s.pcs[e.thread]).None?
    ensures s'.sh.changes == s.sh.changes && (s.sh.closed ==> s'.sh.closed)
    ensures s'.sh.client == s.sh.client || s'.sh.closed
    ensures s'.sh.closed && (s.sh.closed ==> s.sh.closeFailed) ==> s'.sh.closeFailed
    ensures !Forcing(s.pcs[e.thread]) ==> s'.sh.closeFailed == s.sh.closeFailed
  {
    if e.act.Go? {
      OutsiderGoes(s, e.thread, e.act.ok, s', ch);
    }
  }

  lemma LoreGrows(l: Lore, s: Sys, e: Event, s': Sys, l': Lore)
    requires Learned(l, s, e, s', l')
    ensures l.vouched <= l'.vouched && l.condemned <= l'.condemned && l.checked <= l'.checked
  {
    forall p | p in l.vouched ensures p in l'.vouched { assert p == (p.0, p.1); }
    forall p | p in l.condemned ensures p in l'.condemned { assert p == (p.0, p.1); }
  }

  lemma OutsiderTellsNothing(s: Sys, e: Event, s': Sys, ch: nat)
    requires Enacts(s, e, s') && s.sh.change == Some(ch) && ch < |s.sh.changes|
    requires e.act.Release? || e.act.Invalidate? || Owned(s.pcs[e.thread]).None?
    ensures !Fails(s, e, ch) && !AcquireBegins(s, e, s', ch)
  {
  }

  lemma OutsiderGoes(s: Sys, t: nat, ok: bool, s': Sys, ch: nat)
    requires SingleFlight(s) && Enabled(s, t, Go(ok)) && s' == After(s, t, Go(ok)) && s.sh.change == Some(ch)
    requires Owned(s.pcs[t]).None?
    ensures s'.sh.changes == s.sh.changes && (s.sh.closed ==> s'.sh.closed)
    ensures s'.sh.client == s.sh.client || s'.sh.closed
    ensures s'.sh.closed && (s.sh.closed ==> s.sh.closeFailed) ==> s'.sh.closeFailed
    ensures !Forcing(s.pcs[t]) ==> s'.sh.closeFailed == s.sh.closeFailed
  {
    var pc := s.pcs[t];
    if Forcing(pc) {
      assert s' == StepForce(s, t, pc);
    } else if Closing(pc) {
      assert s' == StepClose(s, t, pc, ok);
    }
  }

  // What the acting goroutine relies on afterwards.

  lemma EnterIsTold(s: Sys, e: Event, s': Sys, l: Lore, l': Lore)
    requires |s'.pcs| == |s.pcs|
    requires SingleFlight(s) && Told(s, l) && Enacts(s, e, s') && Learned(l, s, e, s', l')
    requires e.act.Go? && s.pcs[e.thread].Enter?
    ensures PcTold(s', l', s'.pcs[e.thread])
  {
    assert !Fails(s, e, |s.sh.changes|);
    if Owned(s'.pcs[e.thread]).None? { OthersAreTold(s', l', s'.pcs[e.thread]); }
  }

  lemma IdlersAreTold(s: Sys, e: Event, s': Sys, l': Lore)
    requires |s'.pcs| == |s.pcs|
    requires Enacts(s, e, s') && e.act.Go? && (s.pcs[e.thread].Await? || s.pcs[e.thread].Recheck?)
    ensures PcTold(s', l', s'.pcs[e.thread])
  {
    OthersAreTold(s', l', s'.pcs[e.thread]);
  }

  lemma DrainingIsTold(s: Sys, e: Event, s': Sys, l: Lore, l': Lore)
    requires |s'.pcs| == |s.pcs|
    requires Told(s, l) && Enacts(s, e, s') && Learned(l, s, e, s', l') && e.act.Go? && Draining(s.pcs[e.thread])
    requires PcOk(s, s.pcs[e.thread])
    ensures PcTold(s', l', s'.pcs[e.thread])
  {
    var pc := s.pcs[e.thread];
    LoreGrows(l, s, e, s', l');
    assert PcTold(s, l, pc) && !Fails(s, e, pc.ch) && !AcquireBegins(s, e, s', pc.ch);
    if pc.ReadInvalid? && s'.pcs[e.thread].Retire? {
      assert SeesInvalid(s, e, pc.ch, pc.prior);
    } else if pc.Probe? {
      assert Probes(s, e, pc.ch, pc.prior, e.act.ok);
    }
  }

  lemma ReplacingIsTold(s: Sys, e: Event, s': Sys, l: Lore, l': Lore)
    requires |s'.pcs| == |s.pcs|
    requires Told(s, l) && Enacts(s, e, s') && Learned(l, s, e, s', l') && e.act.Go? && Replacing(s.pcs[e.thread])
    ensures PcTold(s', l', s'.pcs[e.thread])
  {
    var pc := s.pcs[e.thread];
    LoreGrows(l, s, e, s', l');
    assert PcTold(s, l, pc) && !AcquireBegins(s, e, s', pc.ch);
    if pc.Create? && e.act.ok {
      assert Creates(s, e, pc.ch, s.created);
    } else if (pc.Create? || pc.CloseOld?) && !e.act.ok {
      assert Fails(s, e, pc.ch);
    }
  }

  lemma EndingIsTold(s: Sys, e: Event, s': Sys, l: Lore, l': Lore)
    requires |s'.pcs| == |s.pcs|
    requires Told(s, l) && Enacts(s, e, s') && Learned(l, s, e, s', l') && e.act.Go?
    requires s.pcs[e.thread].Settle? || s.pcs[e.thread].Finish?
    ensures PcTold(s', l', s'.pcs[e.thread])
  {
    var pc := s.pcs[e.thread];
    LoreGrows(l, s, e, s', l');
    assert PcTold(s, l, pc) && !Fails(s, e, pc.ch) && !AcquireBegins(s, e, s', pc.ch);
    assert pc.Settle? && !s.sh.closed ==> ChecksOpen(s, e, pc.ch);
  }

  lemma ClosingIsTold(s: Sys, e: Event, s': Sys, l: Lore, l': Lore)
    requires |s'.pcs| == |s.pcs|
    requires SingleFlight(s) && Told(s, l) && Enacts(s, e, s') && Learned(l, s, e, s', l') && e.act.Go?
    requires Closing(s.pcs[e.thread])
    ensures PcTold(s', l', s'.pcs[e.thread])
  {
    var pc := s.pcs[e.thread];
    assert PcTold(s, l, pc);
    if pc.CloseEnter? {
      assert !Fails(s, e, |s.sh.changes|);
      CloseEnterIsTold(s, e, s', l, l');
    } else if pc.CloseAwait? {
      OthersAreTold(s', l', s'.pcs[e.thread]);
    } else if pc.CloseCall? {
      assert Fails(s, e, pc.ch) <==> pc.cli.Some? && !e.act.ok;
      CloseCallIsTold(s, e, s', l, l');
    } else {
      assert !Fails(s, e, pc.ch);
      CloseGoesOnTold(s, e, s', l, l');
    }
  }

  lemma CloseEnterIsTold(s: Sys, e: Event, s': Sys, l: Lore, l': Lore)
    requires |s'.pcs| == |s.pcs|
    requires Told(s, l) && Enacts(s, e, s') && Learned(l, s, e, s', l') && e.act.Go? && s.pcs[e.thread].CloseEnter?
    ensures PcTold(s', l', s'.pcs[e.thread])
  {
    assert s' == StepClose(s, e.thread, CloseEnter, e.act.ok);
    assert |s.sh.changes| !in l.troubled && !Fails(s, e, |s.sh.changes|);
  }

  lemma CloseCallIsTold(s: Sys, e: Event, s': Sys, l: Lore, l': Lore)
    requires |s'.pcs| == |s.pcs|
    requires Told(s, l) && Enacts(s, e, s') && Learned(l, s, e, s', l') && e.act.Go? && s.pcs[e.thread].CloseCall?
    ensures PcTold(s', l', s'.pcs[e.thread])
  {
    assert s' == StepClose(s, e.thread, s.pcs[e.thread], e.act.ok);
    assert PcTold(s, l, s.pcs[e.thread]);
    assert Fails(s, e, s.pcs[e.thread].ch) <==> s.pcs[e.thread].cli.Some? && !e.act.ok;
  }

  lemma CloseGoesOnTold(s: Sys, e: Event, s': Sys, l: Lore, l': Lore)
    requires |s'.pcs| == |s.pcs|
    requires Told(s, l) && Enacts(s, e, s') && Learned(l, s, e, s', l') && e.act.Go?
    requires var pc := s.pcs[e.thread]; pc.CloseDrain? || pc.CloseRetire? || pc.CloseRecord?
    ensures PcTold(s', l', s'.pcs[e.thread])
  {
    assert s' == StepClose(s, e.thread, s.pcs[e.thread], e.act.ok);
    assert PcTold(s, l, s.pcs[e.thread]) && !Fails(s, e, s.pcs[e.thread].ch);
  }

  lemma ForcingIsTold(s: Sys, e: Event, s': Sys, l: Lore, l': Lore)
    requires |s'.pcs| == |s.pcs|
    requires Told(s, l) && Enacts(s, e, s') && Learned(l, s, e, s', l') && e.act.Go? && Forcing(s.pcs[e.thread])
    ensures PcTold(s', l', s'.pcs[e.thread])
  {
    var pc := s.pcs[e.thread];
    assert PcTold(s, l, pc);
    if pc.own.Some? { assert !Fails(s, e, pc.own.value); }
  }

  lemma CancelledIsTold(s: Sys, e: Event, s': Sys, l: Lore, l': Lore)
    requires |s'.pcs| == |s.pcs|
    requires Told(s, l) && Enacts(s, e, s') && Learned(l, s, e, s', l') && e.act.Cancel?
    ensures PcTold(s', l', s'.pcs[e.thread])
  {
    var pc := s.pcs[e.thread];
    assert PcTold(s, l, pc);
    if pc.Drain? || pc.CloseDrain? {
      assert Fails(s, e, pc.ch) && !AcquireBegins(s, e, s', pc.ch);
    }
  }

  lemma ActorIsTold(s: Sys, e: Event, s': Sys, l: Lore, l': Lore)
    requires |s'.pcs| == |s.pcs|
    requires Inv(s) && Told(s, l) && Enacts(s, e, s') && Learned(l, s, e, s', l')
    requires e.act.Start? || e.act.Go? || e.act.Cancel?
    ensures PcTold(s', l', s'.pcs[e.thread])
  {
    var pc := s.pcs[e.thread];
    assert PcOk(s, pc);
    if e.act.Start? {
      OthersAreTold(s', l', s'.pcs[e.thread]);
    } else if e.act.Cancel? {
      CancelledIsTold(s, e, s', l, l');
    } else if Draining(pc) {
      DrainingIsTold(s, e, s', l, l');
    } else if Replacing(pc) {
      ReplacingIsTold(s, e, s', l, l');
    } else if Closing(pc) {
      ClosingIsTold(s, e, s', l, l');
    } else if Forcing(pc) {
      ForcingIsTold(s, e, s', l, l');
    } else if pc.Settle? || pc.Finish? {
      EndingIsTold(s, e, s', l, l');
    } else if pc.Enter? {
      EnterIsTold(s, e, s', l, l');
    } else {
      IdlersAreTold(s, e, s', l');
    }
  }

  lemma BystanderIsTold(s: Sys, e: Event, s': Sys, l: Lore, l': Lore, h: nat)
    requires Inv(s) && Told(s, l) && Enacts(s, e, s') && Learned(l, s, e, s', l') && h < |s.pcs|
    requires h != e.thread || e.act.Release? || e.act.Invalidate?
    ensures h < |s'.pcs| && s'.pcs[h] == s.pcs[h] && PcTold(s', l', s'.pcs[h])
  {
    OnlyOneMoves(s, e, s', h);
    if Owned(s.pcs[h]).Some? {
      OutsiderSteps(s, e, s', l, l', Owned(s.pcs[h]).value);
      OwnerIsTold(s, l, s', l', s.pcs[h]);
    } else {
      OthersAreTold(s', l', s.pcs[h]);
    }
  }

  lemma OnlyOneMoves(s: Sys, e: Event, s': Sys, h: nat)
    requires Enacts(s, e, s') && h < |s.pcs| && (h != e.thread || e.act.Release? || e.act.Invalidate?)
    ensures |s'.pcs| == |s.pcs| && s'.pcs[h] == s.pcs[h]
  {
    if e.act.Go? { GoMovesOne(s, e.thread, e.act.ok, h); }
  }

  lemma GoMovesOne(s: Sys, t: nat, ok: bool, h: nat)
    requires Enabled(s, t, Go(ok)) && h < |s.pcs|
    ensures var s' := StepGo(s, t, ok); |s'.pcs| == |s.pcs| && (h != t ==> s'.pcs[h] == s.pcs[h])
  {
    var pc := s.pcs[t];
    if Draining(pc) {
      assert StepDrainOld(s, t, pc, ok).pcs == s.pcs[t := StepDrainOld(s, t, pc, ok).pcs[t]];
    } else if Closing(pc) {
      CloseMovesOne(s, t, pc, ok, h);
    } else if Forcing(pc) {
      ForceKeepsOwner(s, t);
    }
  }

  lemma CloseMovesOne(s: Sys, t: nat, pc: Pc, ok: bool, h: nat)
    requires t < |s.pcs| && Closing(pc) && h < |s.pcs|
    ensures var s' := StepClose(s, t, pc, ok); |s'.pcs| == |s.pcs| && (h != t ==> s'.pcs[h] == s.pcs[h])
  {
  }

  /** Only owners of changes meet failures, and changes are only ever added. */
  lemma NewsIsOfKnownChanges(s: Sys, e: Event, s': Sys, ch: nat)
    requires SingleFlight(s) && Enacts(s, e, s') && (Fails(s, e, ch) || AcquireBegins(s, e, s', ch))
    ensures ch < |s'.sh.changes|
  {
    if Fails(s, e, ch) { assert Owned(s.pcs[e.thread]) == Some(ch); }
    ChangesGrow(s, e, s');
  }

  /** Steps that end no change leave those there are as they are. */
  lemma ChangesStay(s: Sys, t: nat, ok: bool)
    requires Enabled(s, t, Go(ok))
    requires var pc := s.pcs[t]; !pc.Finish? && !(pc.Settle? && pc.who == Acquiring)
    ensures s.sh.changes <= StepGo(s, t, ok).sh.changes
  {
    var pc := s.pcs[t];
    if Draining(pc) {
      DrainKeepsChanges(s, t, pc, ok);
    } else if Replacing(pc) {
      ReplaceKeepsChanges(s, t, pc, ok);
    } else if Closing(pc) {
      CloseKeepsChanges(s, t, pc, ok);
    } else if Forcing(pc) {
      ForceKeepsOwner(s, t);
    } else if pc.Enter? {
      EnterKeepsChanges(s, t, pc.who);
    }
  }

  lemma DrainKeepsChanges(s: Sys, t: nat, pc: Pc, ok: bool)
    requires t < |s.pcs| && Draining(pc)
    ensures StepDrainOld(s, t, pc, ok).sh.changes == s.sh.changes
  {
  }

  lemma ReplaceKeepsChanges(s: Sys, t: nat, pc: Pc, ok: bool)
    requires t < |s.pcs| && Replacing(pc)
    ensures StepReplace(s, t, pc, ok).sh.changes == s.sh.changes
  {
  }

  lemma CloseKeepsChanges(s: Sys, t: nat, pc: Pc, ok: bool)
    requires t < |s.pcs| && Closing(pc)
    ensures s.sh.changes <= StepClose(s, t, pc, ok).sh.changes
  {
  }

  lemma EnterKeepsChanges(s: Sys, t: nat, who: Caller)
    requires t < |s.pcs|
    ensures s.sh.changes <= StepEnter(s, t, who).sh.changes
  {
  }

  lemma EndingKeepsOthers(s: Sys, t: nat, ok: bool)
    requires Enabled(s, t, Go(ok))
    requires var pc := s.pcs[t]; pc.Finish? || (pc.Settle? && pc.who == Acquiring)
    ensures var cs, cs' := s.sh.changes, StepGo(s, t, ok).sh.changes;
      && |cs'| == |cs|
      && (forall ch :: 0 <= ch < |cs| ==> cs'[ch].closing == cs[ch].closing)
      && (forall ch :: 0 <= ch < |cs| && ch != s.pcs[t].ch ==> cs'[ch] == cs[ch])
  {
    var pc := s.pcs[t];
    if pc.Settle? {
      SettlingKeepsOthers(s, t, ok);
    } else {
      FinishingKeepsOthers(s.sh, pc.ch, pc.failed);
    }
  }

  lemma SettlingKeepsOthers(s: Sys, t: nat, ok: bool)
    requires Enabled(s, t, Go(ok)) && s.pcs[t].Settle? && s.pcs[t].who == Acquiring
    ensures var cs, cs' := s.sh.changes, StepGo(s, t, ok).sh.changes;
      && |cs'| == |cs|
      && (forall ch :: 0 <= ch < |cs| ==> cs'[ch].closing == cs[ch].closing)
      && (forall ch :: 0 <= ch < |cs| && ch != s.pcs[t].ch ==> cs'[ch] == cs[ch])
  {
    var pc := s.pcs[t];
    SettlingChanges(s, t, pc.ch, pc.failed);
    FinishingKeepsOthers(s.sh, pc.ch, StepGo(s, t, ok).sh.changes[pc.ch].failed);
  }

  lemma SettlingChanges(s: Sys, t: nat, ch: nat, failed: bool)
    requires t < |s.pcs| && ch < |s.sh.changes|
    ensures var cs := StepSettle(s, t, ch, Acquiring, failed).sh.changes;
      ch < |cs| && cs == Finished(s.sh, ch, cs[ch].failed).changes
  {
  }

  lemma FinishingKeepsOthers(sh: Shared, ch: nat, failed: bool)
    requires ch < |sh.changes|
    ensures var cs, cs' := sh.changes, Finished(sh, ch, failed).changes;
      && |cs'| == |cs|
      && (forall k :: 0 <= k < |cs| ==> cs'[k].closing == cs[k].closing)
      && (forall k :: 0 <= k < |cs| && k != ch ==> cs'[k] == cs[k])
  {
  }

  lemma ChangesGrow(s: Sys, e: Event, s': Sys)
    requires Enacts(s, e, s')
    ensures |s.sh.changes| <= |s'.sh.changes|
    ensures forall ch :: 0 <= ch < |s.sh.changes| ==> s'.sh.changes[ch].closing == s.sh.changes[ch].closing
  {
    if e.act.Go? {
      var pc := s.pcs[e.thread];
      if pc.Finish? || (pc.Settle? && pc.who == Acquiring) {
        EndingKeepsOthers(s, e.thread, e.act.ok);
      } else {
        ChangesStay(s, e.thread, e.act.ok);
      }
    }
  }

  lemma StepIsTold(s: Sys, e: Event, s': Sys, l: Lore, l': Lore)
    requires Inv(s) && Told(s, l) && Enacts(s, e, s') && Learned(l, s, e, s', l')
    ensures Told(s', l')
  {
    forall h | 0 <= h < |s'.pcs| ensures PcTold(s', l', s'.pcs[h]) {
      SameThreads(s, e, s');
      if h == e.thread && !e.act.Release? && !e.act.Invalidate? {
        ActorIsTold(s, e, s', l, l');
      } else {
        BystanderIsTold(s, e, s', l, l', h);
      }
    }
    ChangesGrow(s, e, s');
    forall ch: nat | ch in l'.troubled || ch in l'.acquired ensures ch < |s'.sh.changes| {
      if ch !in l.troubled && ch !in l.acquired { NewsIsOfKnownChanges(s, e, s', ch); }
    }
    forall ch: nat | ch in l'.acquired ensures !OfClosing(s', ch) {
      if ch !in l.acquired { AcquireBeginsRefresh(s, e, s', ch); }
    }
  }

  lemma AcquireBeginsRefresh(s: Sys, e: Event, s': Sys, ch: nat)
    requires Enacts(s, e, s') && AcquireBegins(s, e, s', ch)
    ensures !OfClosing(s', ch)
  {
    assert e.act.Go? ==> s' == StepEnter(s, e.thread, Acquiring);
  }

  lemma SameThreads(s: Sys, e: Event, s': Sys)
    requires Enacts(s, e, s')
    ensures |s'.pcs| == |s.pcs|
  {
    if e.act.Go? { GoMovesOne(s, e.thread, e.act.ok, e.thread); }
  }

  // ---------- Over runs ----------

  ghost predicate Vouched(states: seq<Sys>, events: seq<Event>, n: nat, ch: nat, c: nat)
    requires n <= |events| < |states|
  {
    exists k {:trigger events[k]} :: 0 <= k < n &&
      (Probes(states[k], events[k], ch, c, true) || Creates(states[k], events[k], ch, c))
  }

  ghost predicate Condemned(states: seq<Sys>, events: seq<Event>, n: nat, ch: nat, c: nat)
    requires n <= |events| < |states|
  {
    exists k {:trigger events[k]} :: 0 <= k < n &&
      (Probes(states[k], events[k], ch, c, false) || SeesInvalid(states[k], events[k], ch, c))
  }

  ghost predicate Troubled(states: seq<Sys>, events: seq<Event>, n: nat, ch: nat)
    requires n <= |events| < |states|
  {
    exists k {:trigger events[k]} :: 0 <= k < n && Fails(states[k], events[k], ch)
  }

  ghost predicate Acquired(states: seq<Sys>, events: seq<Event>, n: nat, ch: nat)
    requires n <= |events| < |states|
  {
    exists k {:trigger events[k]} :: 0 <= k < n && AcquireBegins(states[k], events[k], states[k + 1], ch)
  }

  ghost predicate Checked(states: seq<Sys>, events: seq<Event>, n: nat, ch: nat)
    requires n <= |events| < |states|
  {
    exists k {:trigger events[k]} :: 0 <= k < n && ChecksOpen(states[k], events[k], ch)
  }

  ghost predicate Forced(states: seq<Sys>, events: seq<Event>, n: nat)
    requires n <= |events| < |states|
  {
    exists k {:trigger events[k]} :: 0 <= k < n && Forces(states[k], events[k])
  }

  ghost function LoreAt(states: seq<Sys>, events: seq<Event>, n: nat): Lore
    requires n <= |events| < |states|
  {
    Lore(
      (iset p: (nat, nat) | Vouched(states, events, n, p.0, p.1)),
      (iset p: (nat, nat) | Condemned(states, events, n, p.0, p.1)),
      (iset ch: nat | Troubled(states, events, n, ch)),
      (iset ch: nat | Acquired(states, events, n, ch)),
      (iset ch: nat | Checked(states, events, n, ch)),
      Forced(states, events, n))
  }

  lemma LoreIsLearned(states: seq<Sys>, events: seq<Event>, n: nat)
    requires n < |events| < |states|
    ensures Learned(LoreAt(states, events, n), states[n], events[n], states[n + 1], LoreAt(states, events, n + 1))
  {
  }

  lemma {:induction false} ToldAt(states: seq<Sys>, events: seq<Event>, n: nat)
    requires Run(states, events) && n <= |events|
    ensures Told(states[n], LoreAt(states, events, n))
  {
    if n > 0 {
      ToldAt(states, events, n - 1);
      InvAt(states, events, n - 1);
      LoreIsLearned(states, events, n - 1);
      StepIsTold(states[n - 1], events[n - 1], states[n],
        LoreAt(states, events, n - 1), LoreAt(states, events, n));
    }
  }

  // ---------- How a change ends ----------

  /** The event ends change `ch`. */
  predicate Ends(s: Sys, s': Sys, ch: nat) {
    && ch < |s.sh.changes| && ch < |s'.sh.changes|
    && !s.sh.changes[ch].done && s'.sh.changes[ch].done
  }

  lemma EnderIsAtTheEnd(s: Sys, e: Event, s': Sys, ch: nat)
    requires Enacts(s, e, s') && Ends(s, s', ch)
    ensures e.act.Go?
    ensures var pc := s.pcs[e.thread]; (pc.Finish? || (pc.Settle? && pc.who == Acquiring)) && pc.ch == ch
    ensures s'.sh.changes[ch].closing == s.sh.changes[ch].closing
  {
    if e.act.Go? {
      EndingPc(s, e.thread, e.act.ok, ch);
      EndingKeepsOthers(s, e.thread, e.act.ok);
    }
  }

  lemma EndingPc(s: Sys, t: nat, ok: bool, ch: nat)
    requires Enabled(s, t, Go(ok)) && ch < |s.sh.changes| && !s.sh.changes[ch].done
    requires var s' := StepGo(s, t, ok); ch < |s'.sh.changes| && s'.sh.changes[ch].done
    ensures var pc := s.pcs[t]; (pc.Finish? || (pc.Settle? && pc.who == Acquiring)) && pc.ch == ch
  {
    var pc := s.pcs[t];
    if pc.Finish? || (pc.Settle? && pc.who == Acquiring) {
      EndingKeepsOthers(s, t, ok);
    } else {
      ChangesStay(s, t, ok);
    }
  }

  /**
   A refresh that ends without failure leaves published, on a shell that is not closed, a client whose probe in that
   refresh succeeded or that was created in it; nothing in it has failed, and afterwards its caller has found the shell
   open. One that ends with a failure has met one: an expired wait, a failed close or connect; or the shell was closed
   meanwhile. A failed probe is no failure.
   */
  lemma RefreshEndsForAReason(states: seq<Sys>, events: seq<Event>, n: nat, ch: nat)
    requires Run(states, events) && n < |events| && Ends(states[n], states[n + 1], ch)
    requires !states[n].sh.changes[ch].closing
    ensures var s' := states[n + 1];
      if s'.sh.changes[ch].failed then Troubled(states, events, n, ch) || s'.sh.closed
      else
        && !Troubled(states, events, n, ch) && Checked(states, events, n + 1, ch)
        && (s'.sh.closed || (s'.sh.client.Some? && Vouched(states, events, n, ch, s'.sh.client.value)))
  {
    ToldAt(states, events, n);
    assert Enacts(states[n], events[n], states[n + 1]);
    EnderIsAtTheEnd(states[n], events[n], states[n + 1], ch);
    EndingTells(states[n], events[n], states[n + 1], ch, LoreAt(states, events, n));
    assert Checked(states, events, n + 1, ch) <==>
      Checked(states, events, n, ch) || ChecksOpen(states[n], events[n], ch);
  }

  lemma EndingTells(s: Sys, e: Event, s': Sys, ch: nat, l: Lore)
    requires Told(s, l) && Enacts(s, e, s') && Ends(s, s', ch) && !s.sh.changes[ch].closing && e.act.Go?
    requires (s.pcs[e.thread].Settle? && s.pcs[e.thread].who == Acquiring) || s.pcs[e.thread].Finish?
    requires s.pcs[e.thread].ch == ch
    ensures if s'.sh.changes[ch].failed then ch in l.troubled || s'.sh.closed
      else
        && ch !in l.troubled && (ch in l.checked || ChecksOpen(s, e, ch))
        && (s'.sh.closed || (s'.sh.client.Some? && (ch, s'.sh.client.value) in l.vouched))
  {
    assert PcTold(s, l, s.pcs[e.thread]);
  }

  /**
   A graceful close ends with a failure exactly if its wait for leases expired or closing the client failed; if nobody
   has closed by force, that is what later callers of the close are told.
   */
  lemma CloseEndsForAReason(states: seq<Sys>, events: seq<Event>, n: nat, ch: nat)
    requires Run(states, events) && n < |events| && Ends(states[n], states[n + 1], ch)
    requires states[n].sh.changes[ch].closing
    ensures states[n + 1].sh.changes[ch].failed <==> Troubled(states, events, n, ch)
    ensures !Forced(states, events, n) ==> states[n + 1].sh.closeFailed == states[n + 1].sh.changes[ch].failed
  {
    ToldAt(states, events, n);
    assert Enacts(states[n], events[n], states[n + 1]);
    EnderIsAtTheEnd(states[n], events[n], states[n + 1], ch);
    assert PcTold(states[n], LoreAt(states, events, n), states[n].pcs[events[n].thread]);
  }

  /**
   acquireClient, when the change it began ends: exactly if that did not fail it has one lease more, on the client that
   is published then, and the shell is open.
   */
  lemma AcquireEndsWithALease(states: seq<Sys>, events: seq<Event>, n: nat, ch: nat)
    requires Run(states, events) && n < |events| && Ends(states[n], states[n + 1], ch)
    requires Acquired(states, events, n, ch)
    ensures var s, s', t := states[n], states[n + 1], events[n].thread;
      && t < |s'.pcs| && s'.pcs[t] == Idle
      && if s'.sh.changes[ch].failed then s'.leases == s.leases
         else !s'.sh.closed && s'.sh.client.Some? && s'.leases == s.leases + [Lease(s'.sh.client.value, false)]
  {
    var s, e, s' := states[n], events[n], states[n + 1];
    ToldAt(states, events, n);
    assert Enacts(s, e, s');
    EnderIsAtTheEnd(s, e, s', ch);
    SameThreads(s, e, s');
    assert ch in LoreAt(states, events, n).acquired && !OfClosing(s, ch);
    assert PcTold(s, LoreAt(states, events, n), s.pcs[e.thread]);
    AcquirerSettles(s, e, s', ch, LoreAt(states, events, n));
  }

  lemma AcquirerSettles(s: Sys, e: Event, s': Sys, ch: nat, l: Lore)
    requires Enacts(s, e, s') && e.act.Go? && |s'.pcs| == |s.pcs| && ch in l.acquired && !OfClosing(s, ch)
    requires var pc := s.pcs[e.thread]; (pc.Finish? || (pc.Settle? && pc.who == Acquiring)) && pc.ch == ch
    requires PcTold(s, l, s.pcs[e.thread]) && ch < |s.sh.changes| && ch < |s'.sh.changes|
    ensures s'.pcs[e.thread] == Idle
    ensures if s'.sh.changes[ch].failed then s'.leases == s.leases
      else !s'.sh.closed && s'.sh.client.Some? && s'.leases == s.leases + [Lease(s'.sh.client.value, false)]
  {
    assert s.pcs[e.thread].Settle?;
    SettledLease(s, e.thread, ch, s.pcs[e.thread].failed);
  }

  lemma SettledLease(s: Sys, t: nat, ch: nat, failed: bool)
    requires t < |s.pcs| && ch < |s.sh.changes|
    ensures var s' := StepSettle(s, t, ch, Acquiring, failed);
      && ch < |s'.sh.changes| && t < |s'.pcs| && s'.pcs[t] == Idle
      && if s'.sh.changes[ch].failed then s'.leases == s.leases
         else !s'.sh.closed && s'.sh.client.Some? && s'.leases == s.leases + [Lease(s'.sh.client.value, false)]
  {
  }

  // ---------- What a refresh does to the published client ----------

  /** An open shell loses its published client only to a refresh that found it invalidated or probed it in vain. */
  lemma ClientIsRetiredForAReason(states: seq<Sys>, events: seq<Event>, n: nat, c: nat)
    requires Run(states, events) && n < |events|
    requires states[n].sh.client == Some(c) && states[n + 1].sh.client != Some(c) && !states[n + 1].sh.closed
    ensures states[n].sh.change.Some? && Condemned(states, events, n, states[n].sh.change.value, c)
  {
    var s, e, s', l := states[n], events[n], states[n + 1], LoreAt(states, events, n);
    InvAt(states, events, n);
    ToldAt(states, events, n);
    assert Enacts(s, e, s');
    DroppedByRetirement(s, e, s', l, c);
  }

  lemma DroppedByRetirement(s: Sys, e: Event, s': Sys, l: Lore, c: nat)
    requires Inv(s) && Told(s, l) && Enacts(s, e, s')
    requires s.sh.client == Some(c) && s'.sh.client != Some(c) && !s'.sh.closed
    ensures s.sh.change.Some? && (s.sh.change.value, c) in l.condemned
  {
    if e.act.Go? {
      var pc := s.pcs[e.thread];
      assert PcTold(s, l, pc) && PcOk(s, pc);
      OnlyRetirementDrops(s, e.thread, e.act.ok, c);
      assert Owned(pc) == Some(pc.ch);
    }
  }

  lemma OnlyRetirementDrops(s: Sys, t: nat, ok: bool, c: nat)
    requires Enabled(s, t, Go(ok)) && PcOk(s, s.pcs[t]) && s.sh.client == Some(c)
    ensures StepGo(s, t, ok).sh.client == Some(c) || StepGo(s, t, ok).sh.closed ||
      (s.pcs[t].Retire? && s.pcs[t].prior == c)
  {
    var pc := s.pcs[t];
    if Draining(pc) {
      DrainingDrops(s, t, pc, ok, c);
    } else if Replacing(pc) {
      NothingToDrop(s, pc);
    } else if Closing(pc) {
      ClosingDrops(s, t, pc, ok, c);
    } else if Forcing(pc) {
      assert StepForce(s, t, pc).sh.closed || StepForce(s, t, pc).sh.client == s.sh.client;
    } else {
      AcquiringDrops(s, t, ok, c);
    }
  }

  lemma DrainingDrops(s: Sys, t: nat, pc: Pc, ok: bool, c: nat)
    requires t < |s.pcs| && Draining(pc) && s.sh.client == Some(c)
    ensures StepDrainOld(s, t, pc, ok).sh.client == Some(c) || (pc.Retire? && pc.prior == c)
  {
  }

  lemma NothingToDrop(s: Sys, pc: Pc)
    requires Replacing(pc) && PcOk(s, pc)
    ensures s.sh.client == None
  {
  }

  lemma ClosingDrops(s: Sys, t: nat, pc: Pc, ok: bool, c: nat)
    requires t < |s.pcs| && Closing(pc) && s.sh.client == Some(c)
    ensures StepClose(s, t, pc, ok).sh.client == Some(c) || StepClose(s, t, pc, ok).sh.closed
  {
  }

  lemma AcquiringDrops(s: Sys, t: nat, ok: bool, c: nat)
    requires Enabled(s, t, Go(ok)) && s.sh.client == Some(c)
    requires var pc := s.pcs[t]; !Draining(pc) && !Replacing(pc) && !Closing(pc) && !Forcing(pc)
    ensures StepGo(s, t, ok).sh.client == Some(c)
  {
    var pc := s.pcs[t];
    if pc.Enter? {
      assert StepEnter(s, t, pc.who).sh.client == Some(c);
    } else if pc.Settle? {
      SettlingDrops(s, t, pc.ch, pc.who, pc.failed, c);
    }
  }

  lemma SettlingDrops(s: Sys, t: nat, ch: nat, who: Caller, failed: bool, c: nat)
    requires t < |s.pcs| && ch < |s.sh.changes| && s.sh.client == Some(c)
    ensures StepSettle(s, t, ch, who, failed).sh.client == Some(c)
  {
  }

  /** A client is probed only without outstanding leases, and while it is published on an open shell. */
  lemma ProbedClientsAreIdle(states: seq<Sys>, events: seq<Event>, n: nat, ch: nat, c: nat, ok: bool)
    requires Run(states, events) && n < |events| && Probes(states[n], events[n], ch, c, ok)
    ensures OpenOn(states[n].leases, c) == {} && (states[n].sh.closed || states[n].sh.client == Some(c))
  {
    InvAt(states, events, n);
    assert PcOk(states[n], states[n].pcs[events[n].thread]);
  }

  /** acquireClient begins no refresh for a sound client: it leases it at once. */
  lemma SoundClientIsLeasedAtOnce(states: seq<Sys>, events: seq<Event>, n: nat, c: nat)
    requires Run(states, events) && n < |events| && events[n].act.Go?
    requires Enacts(states[n], events[n], states[n + 1])
    requires states[n].pcs[events[n].thread] == Enter(Acquiring) || states[n].pcs[events[n].thread] == Recheck
    requires var sh := states[n].sh; !sh.closed && sh.change.None? && sh.client == Some(c) && !sh.invalid
    ensures var s, s', t := states[n], states[n + 1], events[n].thread;
      && s'.leases == s.leases + [Lease(c, false)] && s'.sh.changes == s.sh.changes && s'.sh.client == Some(c)
      && t < |s'.pcs| && s'.pcs[t] == Idle
  {
  }

  /**
   Whoever waited for a refresh that failed gives up with it; whoever only wanted a sound client shares its success.
   After a close, and to get a lease, one looks again. Waiting changes nothing for anybody else.
   */
  lemma WaitersShareTheResult(states: seq<Sys>, events: seq<Event>, n: nat, who: Caller, ch: nat)
    requires Run(states, events) && n < |events| && events[n].act.Go?
    requires Enacts(states[n], events[n], states[n + 1]) && states[n].pcs[events[n].thread] == Await(who, ch)
    ensures var s, s', t := states[n], states[n + 1], events[n].thread;
      && ch < |s.sh.changes| && s.sh.changes[ch].done
      && s'.sh == s.sh && s'.leases == s.leases && t < |s'.pcs|
      && (s'.pcs[t] == Idle <==> !s.sh.changes[ch].closing && (s.sh.changes[ch].failed || who == Ensuring))
  {
  }
}
