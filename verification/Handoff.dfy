/**
 Reserving a master and the masters on its jump chain for a handoff, and rolling everything back when one of them is
 busy. Nobody else uses the masters meanwhile.
 */
module Handoff {
  import opened Prelude
  import opened JumpChain

  /**
   A multiplexing master and, if the connector owns it, whether the connector holds its active-session reference.
   `dropOnStop` and `dropped` belong to a reference that a stop request takes back by itself.
   */
  datatype Master = Master(
    owned: bool, foreground: bool, sessions: int, streams: int, forwards: nat, shuttingDown: bool, closed: bool,
    stopped: bool, persist: bool, dropOnStop: bool, dropped: bool)

  // ---------- What the operations do to one master ----------

  /** A session ends; the last one shuts down a master that is not to persist or no longer listens. */
  function SessionRemoved(m: Master): Master {
    var m' := m.(sessions := m.sessions - 1);
    if m'.sessions <= 0 && m.streams <= 0 && !m.shuttingDown && !m.closed && (m.stopped || !m.persist)
    then m'.(shuttingDown := true) else m'
  }

  function ForegroundRemoved(m: Master): Master {
    var m' := m.(dropOnStop := false);
    if m.dropped then m'.(dropped := false) else SessionRemoved(m')
  }

  function Released(m: Master): Master {
    if m.owned && m.foreground then ForegroundRemoved(m.(foreground := false)) else m
  }

  predicate CanReserve(m: Master) {
    !m.shuttingDown && !m.closed && !m.stopped && m.sessions <= 0 && m.forwards == 0 && m.streams <= 0
  }

  function Reserved(m: Master): Master {
    m.(shuttingDown := true)
  }

  function Cancelled(m: Master): Master {
    if m.closed || m.stopped then m else m.(shuttingDown := false)
  }

  function Acquired(m: Master, connectorClosed: bool): Master {
    if connectorClosed || !m.owned || m.foreground || m.shuttingDown || m.closed then m
    else m.(foreground := true, sessions := m.sessions + 1)
  }

  function ShutDown(m: Master): Master {
    m.(closed := true, shuttingDown := true)
  }

  /** Whether the master's reference is given up when its turn comes, and what is then to be reserved. */
  predicate Gives(connected: bool, m: Master) {
    connected && m.owned && m.foreground
  }

  function Offered(connected: bool, m: Master): Master {
    if Gives(connected, m) then Released(m) else m
  }

  /** Nobody depends on the master, apart perhaps from the connector's own reference. */
  predicate Ready(connected: bool, m: Master) {
    CanReserve(Offered(connected, m))
  }

  /**
   In terms of its fields: it is up, forwards nothing and carries no stream, and has no session but the one that the
   connector's own reference stands for; the end of that session must not take it down.
   */
  lemma ReadyMeans(connected: bool, m: Master)
    ensures Ready(connected, m) <==>
      && !m.closed && !m.stopped && !m.shuttingDown && m.forwards == 0 && m.streams <= 0
      && if connected && m.owned && m.foreground && !m.dropped then m.sessions <= 1 && m.persist else m.sessions <= 0
  {
  }

  // ---------- Rolling back ----------

  /** The same reservation, the same session count, and the same reference held by the connector. */
  predicate SameReferences(a: Master, b: Master) {
    a.foreground == b.foreground && a.sessions == b.sessions && a.shuttingDown == b.shuttingDown && a.closed == b.closed
  }

  /**
   When giving up the reference can be undone: the connector is not closed, the master is not already on its way down,
   its reference was not taken back by a stop request, and it does not shut down for lack of sessions.
   */
  predicate Resilient(m: Master, connectorClosed: bool) {
    && !connectorClosed && !m.shuttingDown && !m.closed && !m.dropped
    && (m.sessions <= 1 && m.streams <= 0 ==> !m.stopped && m.persist)
  }

  function Taken(m: Master, released: bool, reserved: bool): Master {
    var m' := if released then Released(m) else m;
    if reserved then Reserved(m') else m'
  }

  function Undone(m: Master, released: bool, reserved: bool, connectorClosed: bool): Master {
    var m' := if reserved then Cancelled(m) else m;
    if released then Acquired(m', connectorClosed) else m'
  }

  /** Whether reserved or not, a reference given up comes back exactly if the master is resilient. */
  lemma UndoneExactly(m: Master, released: bool, reserved: bool, connectorClosed: bool)
    requires released ==> m.owned && m.foreground
    requires reserved ==> CanReserve(if released then Released(m) else m)
    ensures SameReferences(Undone(Taken(m, released, reserved), released, reserved, connectorClosed), m) <==>
      (released ==> Resilient(m, connectorClosed))
  {
  }

  // ---------- The masters of a handoff, in order ----------

  function PersistentOf(before: map<nat, Master>, chain: seq<nat>): seq<nat>
    requires forall id :: id in chain ==> id in before
  {
    if chain == [] then []
    else
      var n := |chain| - 1;
      PersistentOf(before, chain[..n]) + if before[chain[n]].persist then [chain[n]] else []
  }

  /** The target, and then the persistent masters of its chain. */
  function Plan(before: map<nat, Master>, master: nat, chain: seq<nat>): seq<nat>
    requires forall id :: id in chain ==> id in before
  {
    [master] + PersistentOf(before, chain)
  }

  lemma {:induction false} PersistentAre(before: map<nat, Master>, chain: seq<nat>)
    requires Distinct(chain) && forall id :: id in chain ==> id in before
    ensures var ps := PersistentOf(before, chain);
      Distinct(ps) && forall id :: id in ps <==> id in chain && before[id].persist
    decreases |chain|
  {
    if chain != [] {
      var n := |chain| - 1;
      PersistentAre(before, chain[..n]);
      assert chain == chain[..n] + [chain[n]];
      assert chain[n] !in chain[..n];
      DistinctOneMore(PersistentOf(before, chain[..n]), chain[n]);
    }
  }

  lemma DistinctOneMore(s: seq<nat>, id: nat)
    requires Distinct(s)
    ensures id !in s ==> Distinct(s + [id])
    ensures forall x :: x in s + [id] <==> x in s || x == id
  {
  }

  /** After the first `i` masters of the chain, the plan has been followed this far. */
  lemma {:induction false} PlanPrefix(before: map<nat, Master>, chain: seq<nat>, i: nat)
    requires i <= |chain| && forall id :: id in chain ==> id in before
    ensures PersistentOf(before, chain[..i]) <= PersistentOf(before, chain)
    ensures i < |chain| && before[chain[i]].persist ==>
      var k := |PersistentOf(before, chain[..i])|; var ps := PersistentOf(before, chain);
      k < |ps| && ps[k] == chain[i] && PersistentOf(before, chain[..i + 1]) == ps[..k + 1]
    ensures i < |chain| && !before[chain[i]].persist ==>
      PersistentOf(before, chain[..i + 1]) == PersistentOf(before, chain[..i])
    decreases |chain| - i
  {
    if i == |chain| {
      assert chain[..i] == chain;
    } else {
      assert chain[..i + 1][..i] == chain[..i];
      PlanPrefix(before, chain, i + 1);
    }
  }

  /** While the chain is gone through, the plan's next master is the chain's next persistent one. */
  lemma NextInPlan(before: map<nat, Master>, master: nat, chain: seq<nat>, i: nat)
    requires i < |chain| && forall id :: id in chain ==> id in before
    ensures var plan, k := Plan(before, master, chain), 1 + |PersistentOf(before, chain[..i])|;
      && k <= |plan|
      && (before[chain[i]].persist ==> k < |plan| && plan[k] == chain[i] && plan[..k + 1] == plan[..k] + [chain[i]])
      && 1 + |PersistentOf(before, chain[..i + 1])| == if before[chain[i]].persist then k + 1 else k
  {
    PlanPrefix(before, chain, i);
    var ps, plan := PersistentOf(before, chain), Plan(before, master, chain);
    var k := |PersistentOf(before, chain[..i])|;
    if before[chain[i]].persist {
      assert plan[k + 1] == ps[k];
      TakeOneMore(plan, k + 1);
    }
  }

  lemma PersistStays(
    before: map<nat, Master>, now: map<nat, Master>, connected: bool, plan: seq<nat>, r: nat, k: nat, id: nat)
    requires InProgress(before, now, connected, plan, r, k) && id in before
    ensures now[id].persist == before[id].persist
  {
  }

  /** The references of the first `r` masters of the plan have been given up, and the first `k` are reserved. */
  ghost predicate InProgress(
    before: map<nat, Master>, now: map<nat, Master>, connected: bool, plan: seq<nat>, r: nat, k: nat)
  {
    && k <= r <= |plan| && Distinct(plan) && now.Keys == before.Keys
    && (forall id :: id in plan ==> id in before)
    && (forall j :: 0 <= j < k ==> Ready(connected, before[plan[j]]))
    && (forall id :: id in before ==> now[id] == TakenAt(before, connected, plan, r, k, id))
  }

  function TakenAt(before: map<nat, Master>, connected: bool, plan: seq<nat>, r: nat, k: nat, id: nat): Master
    requires id in before && k <= |plan| && r <= |plan|
  {
    Taken(before[id], id in plan[..r] && Gives(connected, before[id]), id in plan[..k])
  }

  /** The first master of the plan that is not ready. */
  ghost predicate FirstBusy(before: map<nat, Master>, connected: bool, plan: seq<nat>, k: nat)
    requires forall id :: id in plan ==> id in before
  {
    k < |plan| && !Ready(connected, before[plan[k]]) && forall j :: 0 <= j < k ==> Ready(connected, before[plan[j]])
  }

  ghost predicate AllReady(before: map<nat, Master>, connected: bool, plan: seq<nat>)
    requires forall id :: id in plan ==> id in before
  {
    forall j :: 0 <= j < |plan| ==> Ready(connected, before[plan[j]])
  }

  lemma AllReadyIff(before: map<nat, Master>, connected: bool, master: nat, chain: seq<nat>)
    requires master in before && Distinct(chain) && forall id :: id in chain ==> id in before
    requires forall id :: id in Plan(before, master, chain) ==> id in before
    ensures AllReady(before, connected, Plan(before, master, chain)) <==>
      Ready(connected, before[master]) &&
      forall id :: id in chain && before[id].persist ==> Ready(connected, before[id])
  {
    var ps, plan := PersistentOf(before, chain), Plan(before, master, chain);
    PersistentAre(before, chain);
    assert plan[0] == master && forall j :: 0 <= j < |ps| ==> plan[j + 1] == ps[j];
    if AllReady(before, connected, plan) {
      forall id | id in chain && before[id].persist ensures Ready(connected, before[id]) {
        var j :| 0 <= j < |ps| && ps[j] == id;
        assert plan[j + 1] == id;
      }
    }
    if Ready(connected, before[master]) &&
       forall id :: id in chain && before[id].persist ==> Ready(connected, before[id]) {
      forall j | 0 <= j < |plan| ensures Ready(connected, before[plan[j]]) {
        if j > 0 { assert plan[j] == ps[j - 1] && ps[j - 1] in ps; }
      }
    }
  }

  /** A master as a handoff leaves it that was given up at position `k` of the plan. */
  function GivenUpAt(
    before: map<nat, Master>, connected: bool, closed: bool, plan: seq<nat>, k: nat, id: nat): Master
    requires id in before && k < |plan|
  {
    var released, reserved := id in plan[..k + 1] && Gives(connected, before[id]), id in plan[..k];
    Undone(Taken(before[id], released, reserved), released, reserved, closed)
  }

  ghost predicate GivenUp(
    before: map<nat, Master>, now: map<nat, Master>, connected: bool, closed: bool, plan: seq<nat>, k: nat)
  {
    && (forall id :: id in plan ==> id in before) && FirstBusy(before, connected, plan, k)
    && now.Keys == before.Keys
    && forall id :: id in before ==> now[id] == GivenUpAt(before, connected, closed, plan, k, id)
  }

  /** The plan has been reserved and, with the rest of the chain, taken down; nothing else has changed. */
  ghost predicate HandedOver(
    before: map<nat, Master>, now: map<nat, Master>, connected: bool, plan: seq<nat>, chain: seq<nat>)
  {
    && now.Keys == before.Keys
    && forall id :: id in before ==>
         now[id] == if id in plan then ShutDown(Offered(connected, before[id]))
                    else if id in chain then ShutDown(before[id]) else before[id]
  }

  lemma PrefixIsDistinct(plan: seq<nat>, k: nat)
    requires Distinct(plan) && k <= |plan|
    ensures Distinct(plan[..k])
  {
  }

  /** The plan has been followed for the first `i` masters of the chain. */
  ghost predicate OnPlan(
    before: map<nat, Master>, now: map<nat, Master>, connected: bool, master: nat, chain: seq<nat>, i: nat,
    released: seq<nat>, reserved: seq<nat>)
    requires i <= |chain| && forall id :: id in chain ==> id in before
  {
    var plan, k := Plan(before, master, chain), |reserved|;
    && k == 1 + |PersistentOf(before, chain[..i])| && k <= |plan| && reserved == plan[..k]
    && InProgress(before, now, connected, plan, k, k) && GivenRefs(before, connected, plan, k, released)
  }

  lemma PlanStarted(
    before: map<nat, Master>, now: map<nat, Master>, connected: bool, master: nat, chain: seq<nat>, released: seq<nat>)
    requires forall id :: id in chain ==> id in before
    requires var plan := Plan(before, master, chain);
      InProgress(before, now, connected, plan, 1, 1) && GivenRefs(before, connected, plan, 1, released)
    ensures OnPlan(before, now, connected, master, chain, 0, released, [master])
  {
    assert chain[..0] == [] && Plan(before, master, chain)[..1] == [master];
  }

  lemma PlanEnded(
    before: map<nat, Master>, now: map<nat, Master>, connected: bool, master: nat, chain: seq<nat>,
    released: seq<nat>, reserved: seq<nat>)
    requires forall id :: id in chain ==> id in before
    requires OnPlan(before, now, connected, master, chain, |chain|, released, reserved)
    ensures var plan := Plan(before, master, chain); InProgress(before, now, connected, plan, |plan|, |plan|)
  {
    assert chain[..|chain|] == chain;
  }

  lemma TakenDown(
    before: map<nat, Master>, now: map<nat, Master>, after: map<nat, Master>, connected: bool, master: nat,
    chain: seq<nat>)
    requires Distinct(chain) && forall id :: id in chain ==> id in before
    requires var plan := Plan(before, master, chain); InProgress(before, now, connected, plan, |plan|, |plan|)
    requires after.Keys == before.Keys && forall id :: id in before ==>
      after[id] == if id == master || id in chain then ShutDown(now[id]) else now[id]
    ensures HandedOver(before, after, connected, Plan(before, master, chain), chain)
  {
    var plan := Plan(before, master, chain);
    assert plan[..|plan|] == plan;
    PersistentAre(before, chain);
    forall id | id in before
      ensures after[id] == if id in plan then ShutDown(Offered(connected, before[id]))
                           else if id in chain then ShutDown(before[id]) else before[id]
    {
      assert now[id] == TakenAt(before, connected, plan, |plan|, |plan|, id);
      assert id in plan <==> id == master || id in PersistentOf(before, chain);
      ShutDownOnce(before[id], id in plan && Gives(connected, before[id]), id in plan);
    }
  }

  lemma ShutDownOnce(m: Master, released: bool, reserved: bool)
    ensures ShutDown(Taken(m, released, reserved)) == ShutDown(if released then Released(m) else m)
  {
  }

  /**
   A handoff that is given up leaves everything as at entry exactly if each master that had its reference given up,
   up to and including the first one not ready, is resilient.
   */
  lemma AsAtEntryIff(
    before: map<nat, Master>, now: map<nat, Master>, connected: bool, closed: bool, plan: seq<nat>, k: nat)
    requires Distinct(plan) && GivenUp(before, now, connected, closed, plan, k)
    ensures (forall id :: id in before ==> SameReferences(now[id], before[id])) <==>
      (forall j :: 0 <= j <= k && Gives(connected, before[plan[j]]) ==> Resilient(before[plan[j]], closed))
  {
    forall id | id in before
      ensures SameReferences(now[id], before[id]) <==>
        (id in plan[..k + 1] && Gives(connected, before[id]) ==> Resilient(before[id], closed))
    {
      UndoneExactly(before[id], id in plan[..k + 1] && Gives(connected, before[id]), id in plan[..k], closed);
    }
    forall j | 0 <= j <= k ensures plan[j] in plan[..k + 1] { assert plan[..k + 1][j] == plan[j]; }
  }

  /** What a handoff that succeeds has done, in terms of the fields. */
  lemma HandedOverMeans(
    before: map<nat, Master>, now: map<nat, Master>, connected: bool, plan: seq<nat>, chain: seq<nat>, id: nat)
    requires HandedOver(before, now, connected, plan, chain) && id in before
    ensures id in now
    ensures id in plan || id in chain ==> now[id].closed && now[id].shuttingDown
    ensures id in plan && connected && before[id].owned ==> !now[id].foreground
    ensures id !in plan && id !in chain ==> now[id] == before[id]
    ensures !(id in plan && connected && before[id].owned) ==>
      now[id].foreground == before[id].foreground && now[id].sessions == before[id].sessions
  {
    assert now[id] == if id in plan then ShutDown(Offered(connected, before[id]))
                      else if id in chain then ShutDown(before[id]) else before[id];
  }

  lemma TakeNext(plan: seq<nat>, k: nat)
    requires k < |plan| && Distinct(plan)
    ensures plan[k] !in plan[..k] && forall id :: id in plan[..k + 1] <==> id in plan[..k] || id == plan[k]
  {
    assert plan[..k + 1] == plan[..k] + [plan[k]];
  }

  lemma ReleaseNext(before: map<nat, Master>, now: map<nat, Master>, connected: bool, plan: seq<nat>, k: nat)
    requires InProgress(before, now, connected, plan, k, k) && k < |plan|
    ensures now[plan[k]] == before[plan[k]]
    ensures Gives(connected, before[plan[k]]) ==>
      InProgress(before, now[plan[k] := Released(now[plan[k]])], connected, plan, k + 1, k)
    ensures !Gives(connected, before[plan[k]]) ==> InProgress(before, now, connected, plan, k + 1, k)
  {
    TakeNext(plan, k);
  }

  lemma ReserveNext(before: map<nat, Master>, now: map<nat, Master>, connected: bool, plan: seq<nat>, k: nat)
    requires InProgress(before, now, connected, plan, k + 1, k)
    ensures CanReserve(now[plan[k]]) <==> Ready(connected, before[plan[k]])
    ensures CanReserve(now[plan[k]]) ==>
      InProgress(before, now[plan[k] := Reserved(now[plan[k]])], connected, plan, k + 1, k + 1)
  {
    TakeNext(plan, k);
  }

  /** The list of references given up so far. */
  ghost predicate GivenRefs(before: map<nat, Master>, connected: bool, plan: seq<nat>, r: nat, released: seq<nat>)
    requires r <= |plan|
  {
    && Distinct(released)
    && forall id :: id in released <==> id in plan[..r] && id in before && Gives(connected, before[id])
  }

  lemma GivenRefsNext(before: map<nat, Master>, connected: bool, plan: seq<nat>, k: nat, released: seq<nat>)
    requires k < |plan| && Distinct(plan) && plan[k] in before && GivenRefs(before, connected, plan, k, released)
    ensures GivenRefs(before, connected, plan, k + 1,
      if Gives(connected, before[plan[k]]) then released + [plan[k]] else released)
  {
    TakeNext(plan, k);
  }

  lemma {:induction false} PersistentInChain(before: map<nat, Master>, chain: seq<nat>)
    requires forall id :: id in chain ==> id in before
    ensures forall id :: id in PersistentOf(before, chain) ==> id in chain
    decreases |chain|
  {
    if chain != [] {
      PersistentInChain(before, chain[..|chain| - 1]);
    }
  }

  lemma PlanIsKnown(before: map<nat, Master>, master: nat, chain: seq<nat>)
    requires master in before && forall id :: id in chain ==> id in before
    ensures forall id :: id in Plan(before, master, chain) ==> id in before
  {
    PersistentInChain(before, chain);
  }

  /** The masters the connector owns, in the order in which it started them. */
  function OwnedIn(masters: map<nat, Master>, order: seq<nat>): seq<Option<nat>>
    requires forall id :: id in order ==> id in masters
  {
    if order == [] then []
    else
      var n := |order| - 1;
      OwnedIn(masters, order[..n]) + if masters[order[n]].owned then [Some(order[n])] else []
  }

  lemma {:induction false} OwnedAre(masters: map<nat, Master>, order: seq<nat>, id: nat)
    requires forall id :: id in order ==> id in masters
    ensures Some(id) in OwnedIn(masters, order) <==> id in order && masters[id].owned
    decreases |order|
  {
    if order != [] {
      var n := |order| - 1;
      OwnedAre(masters, order[..n], id);
      assert order == order[..n] + [order[n]];
    }
  }

  lemma {:induction false} OwnedInSame(before: map<nat, Master>, now: map<nat, Master>, order: seq<nat>)
    requires now.Keys == before.Keys && forall id :: id in before ==> now[id].owned == before[id].owned
    requires forall id :: id in order ==> id in before
    ensures OwnedIn(now, order) == OwnedIn(before, order)
    decreases |order|
  {
    if order != [] {
      OwnedInSame(before, now, order[..|order| - 1]);
    }
  }

  /** Giving a reference up changes neither who owns the masters nor, therefore, the chain. */
  lemma OwnersStay(before: map<nat, Master>, now: map<nat, Master>, connected: bool, master: nat, order: seq<nat>)
    requires InProgress(before, now, connected, [master], 1, 0) && forall id :: id in order ==> id in before
    ensures forall id :: id in before ==> now[id].owned == before[id].owned
    ensures OwnedIn(now, order) == OwnedIn(before, order)
  {
    OwnedInSame(before, now, order);
  }

  lemma PlanBegins(
    before: map<nat, Master>, now: map<nat, Master>, connected: bool, master: nat, chain: seq<nat>, released: seq<nat>)
    requires master in before && master !in chain && Distinct(chain) && forall id :: id in chain ==> id in before
    requires connected ==>
      InProgress(before, now, connected, [master], 1, 0) && GivenRefs(before, connected, [master], 1, released)
    requires !connected ==> now == before && released == []
    ensures var plan := Plan(before, master, chain);
      InProgress(before, now, connected, plan, 1, 0) && GivenRefs(before, connected, plan, 1, released)
  {
    var plan := Plan(before, master, chain);
    PersistentAre(before, chain);
    assert plan[..1] == [master] && [master][..1] == [master] && plan[..0] == [] && [master][..0] == [];
    forall id | id in before ensures now[id] == TakenAt(before, connected, plan, 1, 0, id) {
      assert connected ==> now[id] == TakenAt(before, connected, [master], 1, 0, id);
    }
  }

  // ---------- The connector and its masters ----------

  class Fleet {
    const info: nat -> Target
    const connected: bool        // whether there is a connector at all
    var masters: map<nat, Master>
    var order: seq<nat>          // in the order in which the connector started them
    var closed: bool

    ghost predicate Valid()
      reads this
    {
      forall id :: id in order ==> id in masters
    }

    constructor (info: nat -> Target, connected: bool, masters: map<nat, Master>, order: seq<nat>, closed: bool)
      requires forall id :: id in order ==> id in masters
      ensures Valid() && this.info == info && this.connected == connected
      ensures this.masters == masters && this.order == order && this.closed == closed
    {
      this.info, this.connected, this.masters, this.order, this.closed := info, connected, masters, order, closed;
    }

    /** ReleaseMaster; tells whether the connector owns the master. */
    method ReleaseMaster(id: nat) returns (owns: bool)
      requires id in masters
      modifies this`masters
      ensures owns == old(masters)[id].owned && masters == old(masters)[id := Released(old(masters)[id])]
    {
      var m := masters[id];
      owns := m.owned;
      if owns && m.foreground {
        m := m.(foreground := false, dropOnStop := false);
        if m.dropped {
          m := m.(dropped := false);
        } else {
          m := m.(sessions := m.sessions - 1);
          if m.sessions <= 0 && m.streams <= 0 && !m.shuttingDown && !m.closed && (m.stopped || !m.persist) {
            m := m.(shuttingDown := true);
          }
        }
      }
      masters := masters[id := m];
    }

    method AcquireMaster(id: nat) returns (holds: bool)
      requires id in masters
      modifies this`masters
      ensures masters == old(masters)[id := Acquired(old(masters)[id], closed)]
      ensures holds ==> masters[id].foreground
    {
      var m := masters[id];
      if closed || !m.owned {
        return false;
      }
      if m.foreground {
        return true;
      }
      if m.shuttingDown || m.closed {
        return false;
      }
      masters := masters[id := m.(foreground := true, sessions := m.sessions + 1)];
      return true;
    }

    method PrepareHandoff(id: nat) returns (ok: bool)
      requires id in masters
      modifies this`masters
      ensures ok == CanReserve(old(masters)[id])
      ensures masters == if ok then old(masters)[id := Reserved(old(masters)[id])] else old(masters)
    {
      var m := masters[id];
      if m.shuttingDown || m.closed || m.stopped || m.sessions > 0 || m.forwards > 0 || m.streams > 0 {
        return false;
      }
      masters := masters[id := m.(shuttingDown := true)];
      return true;
    }

    method CancelHandoff(id: nat)
      requires id in masters
      modifies this`masters
      ensures masters == old(masters)[id := Cancelled(old(masters)[id])]
    {
      var m := masters[id];
      if !m.closed && !m.stopped {
        masters := masters[id := m.(shuttingDown := false)];
      }
    }

    method Shutdown(id: nat)
      requires id in masters
      modifies this`masters
      ensures masters == old(masters)[id := ShutDown(old(masters)[id])]
    {
      masters := masters[id := masters[id].(closed := true, shuttingDown := true)];
    }

    /** Masters: a snapshot of the masters the connector still owns, in the order in which it started them. */
    method OwnedMasters() returns (owned: seq<Option<nat>>)
      requires Valid()
      ensures owned == OwnedIn(masters, order)
    {
      owned := [];
      var i := 0;
      while i < |order|
        invariant 0 <= i <= |order| && owned == OwnedIn(masters, order[..i])
      {
        assert order[..i + 1][..i] == order[..i];
        if masters[order[i]].owned {
          owned := owned + [Some(order[i])];
        }
        i := i + 1;
      }
      assert order[..i] == order;
    }

    method ShutdownAll(ids: seq<nat>)
      requires Distinct(ids) && forall id :: id in ids ==> id in masters
      modifies this`masters
      ensures masters.Keys == old(masters).Keys
      ensures forall id :: id in masters ==>
        masters[id] == if id in ids then ShutDown(old(masters)[id]) else old(masters)[id]
    {
      var i := 0;
      while i < |ids|
        invariant 0 <= i <= |ids| && masters.Keys == old(masters).Keys
        invariant forall id :: id in masters ==>
          masters[id] == if id in ids[..i] then ShutDown(old(masters)[id]) else old(masters)[id]
      {
        Shutdown(ids[i]);
        i := i + 1;
      }
      assert ids[..i] == ids;
    }

    method CancelAll(reserved: seq<nat>)
      requires Distinct(reserved) && forall id :: id in reserved ==> id in masters
      modifies this`masters
      ensures masters.Keys == old(masters).Keys
      ensures forall id :: id in masters ==>
        masters[id] == if id in reserved then Cancelled(old(masters)[id]) else old(masters)[id]
    {
      var i := 0;
      while i < |reserved|
        invariant 0 <= i <= |reserved| && masters.Keys == old(masters).Keys
        invariant forall id :: id in masters ==>
          masters[id] == if id in reserved[..i] then Cancelled(old(masters)[id]) else old(masters)[id]
      {
        CancelHandoff(reserved[i]);
        i := i + 1;
      }
      assert reserved[..i] == reserved;
    }

    /** The restoreReleased closure. */
    method RestoreReleased(released: seq<nat>)
      requires Distinct(released) && forall id :: id in released ==> id in masters
      modifies this`masters
      ensures masters.Keys == old(masters).Keys
      ensures forall id :: id in masters ==>
        masters[id] == if id in released then Acquired(old(masters)[id], closed) else old(masters)[id]
    {
      var i := 0;
      while i < |released|
        invariant 0 <= i <= |released| && masters.Keys == old(masters).Keys
        invariant forall id :: id in masters ==>
          masters[id] == if id in released[..i] then Acquired(old(masters)[id], closed) else old(masters)[id]
      {
        var holds := AcquireMaster(released[i]);
        i := i + 1;
      }
      assert released[..i] == released;
    }

    /** Undoes reservations first, then takes the references back. */
    method RollBack(released: seq<nat>, reserved: seq<nat>, ghost before: map<nat, Master>, ghost plan: seq<nat>)
      requires InProgress(before, masters, connected, plan, |reserved| + 1, |reserved|)
      requires reserved == plan[..|reserved|]
      requires GivenRefs(before, connected, plan, |reserved| + 1, released)
      requires !Ready(connected, before[plan[|reserved|]])
      modifies this`masters
      ensures GivenUp(before, masters, connected, closed, plan, |reserved|)
    {
      PrefixIsDistinct(plan, |reserved|);
      CancelAll(reserved);
      RestoreReleased(released);
    }

    /** The turn of one persistent master: its reference is given up, and it is reserved or everything is taken back. */
    method ReserveOne(
      m: nat, released0: seq<nat>, reserved: seq<nat>, ghost before: map<nat, Master>, ghost plan: seq<nat>)
      returns (ok: bool, released: seq<nat>)
      requires |reserved| < |plan| && reserved == plan[..|reserved|] && plan[|reserved|] == m
      requires InProgress(before, masters, connected, plan, |reserved|, |reserved|)
      requires GivenRefs(before, connected, plan, |reserved|, released0)
      requires connected && before[m].owned
      modifies this`masters
      ensures !ok ==> GivenUp(before, masters, connected, closed, plan, |reserved|)
      ensures ok ==> InProgress(before, masters, connected, plan, |reserved| + 1, |reserved| + 1)
      ensures ok ==> GivenRefs(before, connected, plan, |reserved| + 1, released)
    {
      ghost var k := |reserved|;
      released := released0;
      ReleaseNext(before, masters, connected, plan, k);
      GivenRefsNext(before, connected, plan, k, released);
      if masters[m].foreground {
        var owns := ReleaseMaster(m);
        released := released + [m];
      }
      ReserveNext(before, masters, connected, plan, k);
      ok := PrepareHandoff(m);
      if !ok {
        RollBack(released, reserved, before, plan);
      }
    }

    /** One turn of the loop over the chain. */
    method ReserveTurn(
      master: nat, jumpMasters: seq<nat>, i: nat, released0: seq<nat>, reserved0: seq<nat>,
      ghost before: map<nat, Master>)
      returns (ok: bool, released: seq<nat>, reserved: seq<nat>)
      requires i < |jumpMasters| && connected && forall id :: id in jumpMasters ==> id in before && before[id].owned
      requires OnPlan(before, masters, connected, master, jumpMasters, i, released0, reserved0)
      modifies this`masters
      ensures !ok ==> GivenUp(before, masters, connected, closed, Plan(before, master, jumpMasters), |reserved|)
      ensures ok ==> OnPlan(before, masters, connected, master, jumpMasters, i + 1, released, reserved)
    {
      ok, released, reserved := true, released0, reserved0;
      ghost var plan := Plan(before, master, jumpMasters);
      var m := jumpMasters[i];
      NextInPlan(before, master, jumpMasters, i);
      PersistStays(before, masters, connected, plan, |reserved|, |reserved|, m);
      if masters[m].persist {
        ok, released := ReserveOne(m, released, reserved, before, plan);
        if ok {
          reserved := reserved + [m];
        }
      }
    }

    /** Reserves every persistent master of the chain, or takes everything back. */
    method ReserveJumpMasters(
      master: nat, released0: seq<nat>, jumpMasters: seq<nat>, ghost before: map<nat, Master>)
      returns (ok: bool, ghost k: nat)
      requires forall id :: id in jumpMasters ==> id in before && before[id].owned
      requires connected || jumpMasters == []
      requires OnPlan(before, masters, connected, master, jumpMasters, 0, released0, [master])
      modifies this`masters
      ensures !ok ==> GivenUp(before, masters, connected, closed, Plan(before, master, jumpMasters), k)
      ensures ok ==> var plan := Plan(before, master, jumpMasters);
        InProgress(before, masters, connected, plan, |plan|, |plan|)
    {
      var released, reserved := released0, [master];
      var i := 0;
      while i < |jumpMasters|
        invariant 0 <= i <= |jumpMasters|
        invariant OnPlan(before, masters, connected, master, jumpMasters, i, released, reserved)
      {
        ok, released, reserved := ReserveTurn(master, jumpMasters, i, released, reserved, before);
        if !ok {
          return false, |reserved|;
        }
        i := i + 1;
      }
      PlanEnded(before, masters, connected, master, jumpMasters, released, reserved);
      return true, |reserved|;
    }

    /** The connector's reference on the target is given up before its jump chain is looked up. */
    method ReleaseTarget(master: nat) returns (released: seq<nat>)
      requires master in masters && masters[master].owned && connected
      modifies this`masters
      ensures InProgress(old(masters), masters, connected, [master], 1, 0)
      ensures GivenRefs(old(masters), connected, [master], 1, released)
    {
      ghost var before, plan := masters, [master];
      ReleaseNext(before, before, connected, plan, 0);
      GivenRefsNext(before, connected, plan, 0, []);
      assert [] + [master] == plan;
      released := [];
      if masters[master].foreground {
        var owns := ReleaseMaster(master);
        released := [master];
      }
    }

    /** The jump chain of a master among those the connector owns. */
    method ChainOf(master: nat) returns (chain: seq<nat>)
      requires Valid()
      ensures IsChain(info, OwnedIn(masters, order), master, chain)
      ensures forall id :: id in chain ==> id in masters && masters[id].owned
    {
      var ours := OwnedMasters();
      chain := JumpChainMasters(info, Some(master), ours);
      forall id | id in chain ensures id in masters && masters[id].owned {
        OwnedAre(masters, order, id);
      }
    }

    /** Everything reserved goes down, and so does the rest of the chain. */
    method TakeDown(master: nat, jumpMasters: seq<nat>, ghost before: map<nat, Master>, ghost plan: seq<nat>)
      requires Distinct(jumpMasters) && forall id :: id in jumpMasters ==> id in before
      requires master !in jumpMasters && plan == Plan(before, master, jumpMasters)
      requires InProgress(before, masters, connected, plan, |plan|, |plan|)
      modifies this`masters
      ensures HandedOver(before, masters, connected, plan, jumpMasters)
    {
      ghost var now := masters;
      Shutdown(master);
      ShutdownAll(jumpMasters);
      TakenDown(before, now, masters, connected, master, jumpMasters);
    }

    /** The target is reserved, or its reference is taken back. */
    method ReserveTarget(master: nat, gaveUp: seq<nat>, ghost before: map<nat, Master>, ghost plan: seq<nat>)
      returns (ok: bool)
      requires plan != [] && plan[0] == master
      requires InProgress(before, masters, connected, plan, 1, 0) && GivenRefs(before, connected, plan, 1, gaveUp)
      modifies this`masters
      ensures ok <==> Ready(connected, before[master])
      ensures !ok ==> GivenUp(before, masters, connected, closed, plan, 0)
      ensures ok ==> InProgress(before, masters, connected, plan, 1, 1)
    {
      ReserveNext(before, masters, connected, plan, 0);
      ok := PrepareHandoff(master);
      if !ok {
        RollBack(gaveUp, [], before, plan);
      }
    }

    /** From the reservation of the target on: either everything is taken down, or everything is taken back. */
    method HandOver(
      master: nat, gaveUp: seq<nat>, jumpMasters: seq<nat>, ghost before: map<nat, Master>, ghost plan: seq<nat>)
      returns (handedOff: bool, ghost k: nat)
      requires Distinct(jumpMasters) && forall id :: id in jumpMasters ==> id in before && before[id].owned
      requires master !in jumpMasters && (connected || jumpMasters == []) && plan == Plan(before, master, jumpMasters)
      requires InProgress(before, masters, connected, plan, 1, 0) && GivenRefs(before, connected, plan, 1, gaveUp)
      modifies this`masters
      ensures handedOff <==> AllReady(before, connected, plan)
      ensures !handedOff ==> GivenUp(before, masters, connected, closed, plan, k)
      ensures handedOff ==> HandedOver(before, masters, connected, plan, jumpMasters)
    {
      var ok := ReserveTarget(master, gaveUp, before, plan);
      if !ok {
        return false, 0;
      }
      PlanStarted(before, masters, connected, master, jumpMasters, gaveUp);
      ok, k := ReserveJumpMasters(master, gaveUp, jumpMasters, before);
      if !ok {
        return false, k;
      }
      TakeDown(master, jumpMasters, before, plan);
      return true, 0;
    }

    /**
     releaseMastersForHandoff. A master the connector does not own is left alone. Otherwise the handoff takes place
     exactly if the target and every persistent master of its chain are ready, and the whole new state is determined.
     */
    method ReleaseMastersForHandoff(master: nat) returns (handedOff: bool, ghost chain: seq<nat>, ghost k: nat)
      requires Valid() && master in masters
      modifies this`masters
      ensures forall id :: id in chain ==> id in old(masters)
      ensures if connected && old(masters)[master].owned then IsChain(info, OwnedIn(old(masters), order), master, chain)
        else chain == []
      ensures if connected && !old(masters)[master].owned then !handedOff && masters == old(masters)
        else Settled(old(masters), masters, connected, closed, master, chain, handedOff, k)
    {
      ghost var before := masters;
      var gaveUp: seq<nat>, jumpMasters: seq<nat> := [], [];
      chain, k := [], 0;
      if connected {
        if !masters[master].owned {
          return false, chain, 0;
        }
        gaveUp := ReleaseTarget(master);
        OwnersStay(before, masters, connected, master, order);
        jumpMasters := ChainOf(master);
        chain := jumpMasters;
      }
      ghost var plan := Plan(before, master, jumpMasters);
      PlanBegins(before, masters, connected, master, jumpMasters, gaveUp);
      handedOff, k := HandOver(master, gaveUp, jumpMasters, before, plan);
      AllReadyIff(before, connected, master, jumpMasters);
    }
  }

  /** Whether a handoff takes place, and what it leaves. */
  ghost predicate Settled(
    before: map<nat, Master>, now: map<nat, Master>, connected: bool, closed: bool, master: nat, chain: seq<nat>,
    handedOff: bool, k: nat)
    requires master in before && forall id :: id in chain ==> id in before
  {
    var plan := Plan(before, master, chain);
    PlanIsKnown(before, master, chain);
    && (handedOff <==>
          Ready(connected, before[master]) &&
          forall id :: id in chain && before[id].persist ==> Ready(connected, before[id]))
    && (handedOff ==> HandedOver(before, now, connected, plan, chain))
    && (!handedOff ==> GivenUp(before, now, connected, closed, plan, k))
  }

  // ---------- A handoff that does not leave everything as at entry ----------

  /** The connector holds the only session of a master that a stop request has taken off its socket. */
  const STOPPED := Master(true, true, 1, 0, 0, false, false, true, true, false, false)

  lemma OnlyTheTarget(chain: seq<nat>)
    requires forall m :: m in chain ==> Some(m) in [Some(0)]
    ensures chain == [] || 0 in chain
  {
    if chain != [] { assert chain[0] in chain; }
  }

  lemma NoChainBesideTheTarget(info: nat -> Target, chain: seq<nat>)
    requires IsChain(info, [Some(0)], 0, chain)
    ensures chain == []
  {
    OnlyTheTarget(chain);
  }

  lemma StoppedIsRefused(now: map<nat, Master>, handedOff: bool, k: nat)
    requires Settled(map[0 := STOPPED], now, true, false, 0, [], handedOff, k)
    ensures !handedOff && 0 in now && !SameReferences(now[0], STOPPED) && !now[0].foreground
  {
    var before, plan := map[0 := STOPPED], Plan(map[0 := STOPPED], 0, []);
    assert plan == [0] && !Ready(true, STOPPED);
    assert k == 0 && plan[..1] == [0] && plan[..0] == [];
    assert now[0] == GivenUpAt(before, true, false, plan, 0, 0);
  }

  /** No handoff takes place, and yet the reference is gone: giving it up has set the master on its way down. */
  method StoppedMasterLosesItsReference(info: nat -> Target) returns (before: Master, after: Master, handedOff: bool)
    ensures before == STOPPED && !handedOff && !SameReferences(after, before) && !after.foreground
  {
    before := STOPPED;
    var f := new Fleet(info, true, map[0 := before], [0], false);
    assert [0][..0] == [] && OwnedIn(f.masters, [0]) == [Some(0)];
    ghost var chain, k;
    handedOff, chain, k := f.ReleaseMastersForHandoff(0);
    NoChainBesideTheTarget(info, chain);
    StoppedIsRefused(f.masters, handedOff, k);
    after := f.masters[0];
  }
}
