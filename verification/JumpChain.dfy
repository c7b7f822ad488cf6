/**
 The masters a target is reached through: a search over jump specifications that may name each other in circles.
 */
module JumpChain {
  import opened Prelude

  /** What a master is connected to; `hops` are the trimmed pieces of its jump specification between commas. */
  datatype Target = Target(originalHost: string, host: string, hops: seq<string>)

  // ---------- Masters by the hosts they serve ----------

  function Bound(byHost: map<string, nat>, name: string, m: nat): map<string, nat> {
    if name == "" then byHost else byHost[name := m]
  }

  function ByHost(info: nat -> Target, owned: seq<Option<nat>>, target: nat): (r: map<string, nat>)
    ensures forall name :: name in r ==> r[name] != target && Some(r[name]) in owned
  {
    if owned == [] then map[]
    else
      var before, last := ByHost(info, owned[..|owned| - 1], target), owned[|owned| - 1];
      if last.None? || last.value == target then before
      else Bound(Bound(before, info(last.value).originalHost, last.value), info(last.value).host, last.value)
  }

  predicate Serves(info: nat -> Target, m: nat, name: string) {
    name != "" && (info(m).originalHost == name || info(m).host == name)
  }

  predicate ServedAt(info: nat -> Target, owned: seq<Option<nat>>, target: nat, name: string, i: nat) {
    i < |owned| && owned[i].Some? && owned[i].value != target && Serves(info, owned[i].value, name)
  }

  ghost predicate LastServer(info: nat -> Target, owned: seq<Option<nat>>, target: nat, name: string, m: nat) {
    exists i: nat :: ServedAt(info, owned, target, name, i) && owned[i] == Some(m)
      && (forall j: nat :: i < j ==> !ServedAt(info, owned, target, name, j))
  }

  ghost predicate Served(info: nat -> Target, owned: seq<Option<nat>>, target: nat, name: string) {
    exists i: nat :: ServedAt(info, owned, target, name, i)
  }

  /** What one more owned master adds. */
  lemma ServedStep(info: nat -> Target, before: seq<Option<nat>>, last: Option<nat>, target: nat, name: string, m: nat)
    ensures var owned := before + [last]; var n := |before|;
      && (Served(info, owned, target, name) <==>
            Served(info, before, target, name) || ServedAt(info, owned, target, name, n))
      && (ServedAt(info, owned, target, name, n) ==> LastServer(info, owned, target, name, last.value))
      && (!ServedAt(info, owned, target, name, n) && LastServer(info, before, target, name, m) ==>
            LastServer(info, owned, target, name, m))
  {
    var owned, n := before + [last], |before|;
    forall i: nat | i != n
      ensures ServedAt(info, owned, target, name, i) <==> ServedAt(info, before, target, name, i)
    {
      if i < n { assert owned[i] == before[i]; }
    }
    if Served(info, before, target, name) {
      var i: nat :| ServedAt(info, before, target, name, i);
      assert ServedAt(info, owned, target, name, i);
    }
    if !ServedAt(info, owned, target, name, n) && LastServer(info, before, target, name, m) {
      var i: nat :| ServedAt(info, before, target, name, i) && before[i] == Some(m)
        && (forall j: nat :: i < j ==> !ServedAt(info, before, target, name, j));
      assert ServedAt(info, owned, target, name, i) && owned[i] == Some(m);
    }
  }

  /** A host leads to the owned master, other than the target, that serves it and was started last. */
  lemma {:induction false} ByHostIsLast(info: nat -> Target, owned: seq<Option<nat>>, target: nat, name: string)
    ensures var byHost := ByHost(info, owned, target);
      && (name in byHost <==> Served(info, owned, target, name))
      && (name in byHost ==> LastServer(info, owned, target, name, byHost[name]))
  {
    if owned != [] {
      var n := |owned| - 1;
      var before, last := owned[..n], owned[n];
      ByHostIsLast(info, before, target, name);
      var byHost := ByHost(info, before, target);
      ServedStep(info, before, last, target, name, if name in byHost then byHost[name] else 0);
      assert owned == before + [last];
    }
  }

  // ---------- Reachability ----------

  ghost predicate Hop(info: nat -> Target, byHost: map<string, nat>, from: nat, to: nat) {
    exists name :: name in info(from).hops && name != "" && name in byHost && byHost[name] == to
  }

  ghost predicate IsPath(info: nat -> Target, byHost: map<string, nat>, path: seq<nat>) {
    |path| > 0 && forall i :: 0 <= i < |path| - 1 ==> Hop(info, byHost, path[i], path[i + 1])
  }

  /** The jump specifications lead from one master to the other in one or more hops. */
  ghost predicate Reachable(info: nat -> Target, byHost: map<string, nat>, from: nat, to: nat) {
    exists path :: |path| > 1 && path[0] == from && path[|path| - 1] == to && IsPath(info, byHost, path)
  }

  lemma ReachableOneMore(info: nat -> Target, byHost: map<string, nat>, from: nat, mid: nat, to: nat)
    requires mid == from || Reachable(info, byHost, from, mid)
    requires Hop(info, byHost, mid, to)
    ensures Reachable(info, byHost, from, to)
  {
    if mid == from {
      assert IsPath(info, byHost, [from, to]);
    } else {
      var path :| |path| > 1 && path[0] == from && path[|path| - 1] == mid && IsPath(info, byHost, path);
      assert IsPath(info, byHost, path + [to]);
    }
  }

  /** A set that every hop from it and from the start stays in holds everything reachable. */
  lemma {:induction false} ClosedHoldsPath(
    info: nat -> Target, byHost: map<string, nat>, from: nat, seen: set<nat>, path: seq<nat>)
    requires |path| > 1 && path[0] == from && IsPath(info, byHost, path)
    requires forall m, m' :: (m == from || m in seen) && Hop(info, byHost, m, m') ==> m' in seen
    ensures path[|path| - 1] in seen
    decreases |path|
  {
    var n := |path| - 1;
    if n > 1 {
      ClosedHoldsPath(info, byHost, from, seen, path[..n]);
    }
    assert Hop(info, byHost, path[n - 1], path[n]);
  }

  /** Exactly the owned masters reachable from the target, each once, and never the target. */
  ghost predicate IsChain(info: nat -> Target, owned: seq<Option<nat>>, target: nat, chain: seq<nat>) {
    && Distinct(chain) && target !in chain
    && (forall m :: m in chain ==> Some(m) in owned)
    && forall m :: m in chain <==> Reachable(info, ByHost(info, owned, target), target, m)
  }

  /** Everything found is reachable and found once; what is neither waiting nor open has been followed. */
  ghost predicate SearchInv(
    info: nat -> Target, byHost: map<string, nat>, start: nat, chain: seq<nat>, seen: set<nat>,
    queue: seq<seq<string>>, waiting: seq<nat>, current: set<nat>)
  {
    && |queue| == |waiting|
    && (forall i :: 0 <= i < |queue| ==> queue[i] == info(waiting[i]).hops)
    && (forall m :: m in waiting || m in current ==> m == start || m in seen)
    && Distinct(chain)
    && (forall m :: m in chain <==> m in seen)
    && (forall m :: m in seen ==> m in byHost.Values && Reachable(info, byHost, start, m))
    && (forall m :: (m == start || m in seen) && m !in waiting && m !in current ==> Followed(info, byHost, seen, m))
  }

  ghost predicate Followed(info: nat -> Target, byHost: map<string, nat>, seen: set<nat>, m: nat) {
    forall m' :: Hop(info, byHost, m, m') ==> m' in seen
  }

  /** The first `k` hops of a master have been looked up. */
  predicate LookedUp(byHost: map<string, nat>, seen: set<nat>, raw: seq<string>, k: nat) {
    forall i :: 0 <= i < k && i < |raw| && raw[i] != "" && raw[i] in byHost ==> byHost[raw[i]] in seen
  }

  lemma LookedUpOneMore(byHost: map<string, nat>, seen: set<nat>, seen': set<nat>, raw: seq<string>, k: nat)
    requires LookedUp(byHost, seen, raw, k) && seen <= seen' && k < |raw|
    requires raw[k] != "" && raw[k] in byHost ==> byHost[raw[k]] in seen'
    ensures LookedUp(byHost, seen', raw, k + 1)
  {
  }

  lemma LookedUpIsFollowed(info: nat -> Target, byHost: map<string, nat>, seen: set<nat>, m: nat)
    requires LookedUp(byHost, seen, info(m).hops, |info(m).hops|)
    ensures Followed(info, byHost, seen, m)
  {
  }

  /** Following a hop to a master not seen before. */
  lemma HopFound(
    info: nat -> Target, byHost: map<string, nat>, start: nat, chain: seq<nat>, seen: set<nat>,
    queue: seq<seq<string>>, waiting: seq<nat>, current: nat, name: string)
    requires SearchInv(info, byHost, start, chain, seen, queue, waiting, {current})
    requires name in info(current).hops && name != "" && name in byHost && byHost[name] !in seen
    ensures var m := byHost[name]; var hops := info(m).hops;
      SearchInv(info, byHost, start, chain + [m], seen + {m},
        if hops == [] then queue else queue + [hops], if hops == [] then waiting else waiting + [m], {current})
  {
    var m := byHost[name];
    assert Hop(info, byHost, current, m);
    ReachableOneMore(info, byHost, start, current, m);
    if info(m).hops == [] {
      LookedUpIsFollowed(info, byHost, seen + {m}, m);
    }
    forall x | (x == start || x in seen) && x !in waiting && x != current
      ensures Followed(info, byHost, seen + {m}, x)
    {
      assert Followed(info, byHost, seen, x);
    }
  }

  lemma Popped(
    info: nat -> Target, byHost: map<string, nat>, start: nat, chain: seq<nat>, seen: set<nat>,
    queue: seq<seq<string>>, waiting: seq<nat>)
    requires SearchInv(info, byHost, start, chain, seen, queue, waiting, {}) && queue != []
    ensures SearchInv(info, byHost, start, chain, seen, queue[1..], waiting[1..], {waiting[0]})
  {
    assert waiting == [waiting[0]] + waiting[1..];
  }

  lemma Closed(
    info: nat -> Target, byHost: map<string, nat>, start: nat, chain: seq<nat>, seen: set<nat>,
    queue: seq<seq<string>>, waiting: seq<nat>, current: nat)
    requires SearchInv(info, byHost, start, chain, seen, queue, waiting, {current})
    requires LookedUp(byHost, seen, info(current).hops, |info(current).hops|)
    ensures SearchInv(info, byHost, start, chain, seen, queue, waiting, {})
  {
    LookedUpIsFollowed(info, byHost, seen, current);
  }

  method BuildByHost(info: nat -> Target, owned: seq<Option<nat>>, target: nat) returns (byHost: map<string, nat>)
    ensures byHost == ByHost(info, owned, target)
  {
    byHost := map[];
    var i := 0;
    while i < |owned|
      invariant 0 <= i <= |owned| && byHost == ByHost(info, owned[..i], target)
    {
      assert owned[..i + 1][..i] == owned[..i];
      if owned[i].Some? && owned[i].value != target {
        var t := info(owned[i].value);
        if t.originalHost != "" {
          byHost := byHost[t.originalHost := owned[i].value];
        }
        if t.host != "" {
          byHost := byHost[t.host := owned[i].value];
        }
      }
      i := i + 1;
    }
    assert owned[..i] == owned;
  }

  /** The inner loop of the search: every hop of one master. */
  method FollowHops(
    info: nat -> Target, byHost: map<string, nat>, ghost start: nat, chain0: seq<nat>, seen0: set<nat>,
    raw: seq<string>, queue0: seq<seq<string>>, ghost waiting0: seq<nat>, ghost current: nat)
    returns (chain: seq<nat>, seen: set<nat>, queue: seq<seq<string>>, ghost waiting: seq<nat>)
    requires raw == info(current).hops
    requires SearchInv(info, byHost, start, chain0, seen0, queue0, waiting0, {current})
    ensures SearchInv(info, byHost, start, chain, seen, queue, waiting, {})
    ensures seen0 <= seen <= byHost.Values && (seen == seen0 ==> |queue| == |queue0|)
  {
    chain, seen, queue, waiting := chain0, seen0, queue0, waiting0;
    var k := 0;
    while k < |raw|
      invariant 0 <= k <= |raw|
      invariant SearchInv(info, byHost, start, chain, seen, queue, waiting, {current})
      invariant LookedUp(byHost, seen, raw, k)
      invariant seen0 <= seen && (seen == seen0 ==> |queue| == |queue0|)
    {
      var hop := raw[k];
      ghost var seenBefore := seen;
      if hop != "" && hop in byHost && byHost[hop] !in seen {
        var hopMaster := byHost[hop];
        HopFound(info, byHost, start, chain, seen, queue, waiting, current, hop);
        seen := seen + {hopMaster};
        chain := chain + [hopMaster];
        var next := info(hopMaster).hops;
        if |next| > 0 {
          queue := queue + [next];
          waiting := waiting + [hopMaster];
        }
      }
      LookedUpOneMore(byHost, seenBefore, seen, raw, k);
      k := k + 1;
    }
    Closed(info, byHost, start, chain, seen, queue, waiting, current);
  }

  /**
   jumpChainMasters. The search ends although specifications may be circular, and returns every master reachable from
   the target exactly once, and never the target.
   */
  method JumpChainMasters(info: nat -> Target, target: Option<nat>, owned: seq<Option<nat>>) returns (chain: seq<nat>)
    ensures target.None? ==> chain == []
    ensures target.Some? ==> IsChain(info, owned, target.value, chain)
  {
    if target.None? {
      return [];
    }
    var start := target.value;
    ghost var hosts := ByHost(info, owned, start);
    if |owned| == 0 {
      SearchEnds(info, hosts, start, [], {});
      return [];
    }
    var byHost := BuildByHost(info, owned, start);
    chain := [];
    var seen: set<nat> := {};
    var queue := [info(start).hops];
    ghost var waiting := [start];
    while |queue| > 0
      invariant SearchInv(info, byHost, start, chain, seen, queue, waiting, {})
      decreases byHost.Values - seen, |queue|
    {
      ghost var seenBefore := seen;
      Popped(info, byHost, start, chain, seen, queue, waiting);
      chain, seen, queue, waiting :=
        FollowHops(info, byHost, start, chain, seen, queue[0], queue[1..], waiting[1..], waiting[0]);
      assert seen != seenBefore ==> byHost.Values - seen < byHost.Values - seenBefore;
    }
    SearchEnds(info, byHost, start, chain, seen);
  }

  /** When nothing is waiting, what has been found is exactly what is reachable. */
  lemma SearchEnds(info: nat -> Target, byHost: map<string, nat>, start: nat, chain: seq<nat>, seen: set<nat>)
    requires SearchInv(info, byHost, start, chain, seen, [], [], {}) || (byHost == map[] && chain == [] && seen == {})
    ensures forall m :: m in chain <==> Reachable(info, byHost, start, m)
  {
    forall m | Reachable(info, byHost, start, m) ensures m in seen {
      var path :| |path| > 1 && path[0] == start && path[|path| - 1] == m && IsPath(info, byHost, path);
      assert Hop(info, byHost, path[0], path[1]);
      forall x, x' | (x == start || x in seen) && Hop(info, byHost, x, x') ensures x' in seen {
        assert Followed(info, byHost, seen, x);
      }
      ClosedHoldsPath(info, byHost, start, seen, path);
    }
  }
}
