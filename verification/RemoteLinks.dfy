/**
 Where symbolic links lead, independently of how a path is resolved: one link at a time, each replaced by its target as
 read from the directory it is in. Resolving a path is following its links to the end, at most forty of them.
 */
module RemoteLinks {
  import opened Prelude
  import opened FileStore
  import opened RemotePath

  // ---------- Reading a target ----------

  /** One piece of a target: nothing and "." stay, ".." goes to the parent (the root is its own), a name goes down. */
  predicate WalkStep(from: Path, piece: string, to: Path) {
    if piece == "" || piece == "." then to == from
    else if piece == ".." then (from == [] && to == []) || (from != [] && to == from[..|from| - 1])
    else to == from + [piece]
  }

  /** The paths passed through while the pieces are read one after the other. */
  predicate IsWalk(stops: seq<Path>, pieces: seq<string>) {
    |stops| == |pieces| + 1 && forall i :: 0 <= i < |pieces| ==> WalkStep(stops[i], pieces[i], stops[i + 1])
  }

  /** Read from `base`, the pieces lead to `q`. */
  ghost predicate Walks(base: Path, pieces: seq<string>, q: Path) {
    exists stops :: IsWalk(stops, pieces) && stops[0] == base && stops[|pieces|] == q
  }

  lemma {:induction false} WalkLeadsToClean(stops: seq<Path>, pieces: seq<string>)
    requires IsWalk(stops, pieces)
    ensures stops[|pieces|] == Clean(stops[0], pieces)
    decreases |pieces|
  {
    if pieces != [] {
      var later := stops[1..];
      assert WalkStep(stops[0], pieces[0], stops[1]);
      forall i | 0 <= i < |pieces[1..]| ensures WalkStep(later[i], pieces[1..][i], later[i + 1]) {
        assert WalkStep(stops[i + 1], pieces[i + 1], stops[i + 1 + 1]);
      }
      WalkLeadsToClean(later, pieces[1..]);
    }
  }

  lemma CleanOne(base: Path, piece: string, more: seq<string>)
    ensures WalkStep(base, piece, Clean(base, [piece]))
    ensures Clean(base, [piece] + more) == Clean(Clean(base, [piece]), more)
  {
    assert [piece][1..] == [] && ([piece] + more)[1..] == more;
  }

  lemma {:induction false} CleanHasWalk(base: Path, pieces: seq<string>) returns (stops: seq<Path>)
    ensures IsWalk(stops, pieces) && stops[0] == base && stops[|pieces|] == Clean(base, pieces)
    decreases |pieces|
  {
    stops := [base];
    if pieces != [] {
      var next := Clean(base, [pieces[0]]);
      CleanOne(base, pieces[0], pieces[1..]);
      assert pieces == [pieces[0]] + pieces[1..];
      var later := CleanHasWalk(next, pieces[1..]);
      StepBefore(base, pieces, later);
      stops := [base] + later;
    }
  }

  lemma StepBefore(base: Path, pieces: seq<string>, later: seq<Path>)
    requires pieces != [] && IsWalk(later, pieces[1..]) && WalkStep(base, pieces[0], later[0])
    ensures IsWalk([base] + later, pieces)
  {
    var stops := [base] + later;
    forall i | 0 <= i < |pieces| ensures WalkStep(stops[i], pieces[i], stops[i + 1]) {
      if i > 0 { assert WalkStep(later[i - 1], pieces[1..][i - 1], later[i - 1 + 1]); }
    }
  }

  /** There is exactly one place the pieces lead to. */
  lemma WalksToClean(base: Path, pieces: seq<string>, q: Path)
    ensures Walks(base, pieces, q) <==> q == Clean(base, pieces)
  {
    var stops := CleanHasWalk(base, pieces);
    if Walks(base, pieces, q) {
      var w :| IsWalk(w, pieces) && w[0] == base && w[|pieces|] == q;
      WalkLeadsToClean(w, pieces);
    }
  }

  // ---------- Following one link ----------

  /** Every prefix of the path exists and is no link. */
  predicate Solid(e: Entries, p: Path) {
    forall k :: 0 < k <= |p| ==> p[..k] in e && !e[p[..k]].Link?
  }

  /** The first link on the way along `p` is the one at `dir + [n]`. */
  predicate FirstLink(e: Entries, p: Path, dir: Path, n: string, rest: Path) {
    p == dir + [n] + rest && Solid(e, dir) && IsLink(e, dir + [n])
  }

  /** The first link of `p` is replaced by where it leads: from the root, or from the directory it is in. */
  ghost predicate LeadsTo(e: Entries, p: Path, q: Path) {
    exists dir: Path, n, rest: Path, to: Path ::
      && FirstLink(e, p, dir, n, rest) && q == to + rest
      && Walks(if e[dir + [n]].target.absolute then [] else dir, e[dir + [n]].target.parts, to)
  }

  lemma FirstLinkIsUnique(
    e: Entries, p: Path, dir: Path, n: string, rest: Path, dir': Path, n': string, rest': Path)
    requires FirstLink(e, p, dir, n, rest) && FirstLink(e, p, dir', n', rest')
    ensures dir == dir' && n == n' && rest == rest'
  {
    NotBefore(e, p, dir, n, rest, dir', n', rest');
    NotBefore(e, p, dir', n', rest', dir, n, rest);
    assert dir == p[..|dir|] && dir' == p[..|dir'|];
    assert n == p[|dir|] && rest == p[|dir| + 1..] && rest' == p[|dir'| + 1..];
  }

  lemma NotBefore(
    e: Entries, p: Path, dir: Path, n: string, rest: Path, dir': Path, n': string, rest': Path)
    requires FirstLink(e, p, dir, n, rest) && FirstLink(e, p, dir', n', rest')
    ensures |dir| <= |dir'|
  {
    NoneBefore(e, p, dir, n, rest);
    assert p[..|dir'| + 1] == dir' + [n'];
  }

  lemma NoneBefore(e: Entries, p: Path, dir: Path, n: string, rest: Path)
    requires FirstLink(e, p, dir, n, rest)
    ensures forall k :: 0 < k <= |dir| ==> !IsLink(e, p[..k])
  {
    forall k | 0 < k <= |dir| ensures !IsLink(e, p[..k]) {
      assert p[..k] == dir[..k];
    }
  }

  lemma LeadsToIsClean(e: Entries, p: Path, q: Path, dir: Path, n: string, rest: Path)
    requires FirstLink(e, p, dir, n, rest)
    ensures LeadsTo(e, p, q) <==> q == LinkTarget(dir, e[dir + [n]].target) + rest
  {
    var target := e[dir + [n]].target;
    var base := if target.absolute then [] else dir;
    WalksToClean(base, target.parts, Clean(base, target.parts));
    if LeadsTo(e, p, q) {
      var dir': Path, n', rest': Path, to: Path :|
        && FirstLink(e, p, dir', n', rest') && q == to + rest'
        && Walks(if e[dir' + [n']].target.absolute then [] else dir', e[dir' + [n']].target.parts, to);
      FirstLinkIsUnique(e, p, dir, n, rest, dir', n', rest');
      WalksToClean(base, target.parts, to);
    }
  }

  // ---------- Following all links ----------

  /** From `p`, at most `budget` links lead one after the other to `r`, where no link is left. */
  ghost predicate Reaches(e: Entries, p: Path, r: Path, budget: nat)
    decreases budget
  {
    || (p == r && LinkFree(e, r))
    || (budget > 0 && exists next :: LeadsTo(e, p, next) && Reaches(e, next, r, budget - 1))
  }

  /** Looking along a path, one finds its first link, or none. */
  lemma {:induction false} ResolveLooks(e: Entries, resolved: Path, pending: Path, budget: nat)
    returns (found: bool, dir: Path, n: string, rest: Path)
    requires Shaped(e) && Solid(e, resolved)
    ensures found ==>
      && FirstLink(e, resolved + pending, dir, n, rest)
      && Resolve(e, resolved, pending, budget) ==
         if budget == 0 then Failed else Resolve(e, [], LinkTarget(dir, e[dir + [n]].target) + rest, budget - 1)
    ensures !found ==>
      LinkFree(e, resolved + pending) && Resolve(e, resolved, pending, budget) == Ok(resolved + pending)
    decreases |pending|
  {
    found, dir, n, rest := false, [], "", [];
    if pending == [] {
      assert resolved + pending == resolved;
    } else {
      var candidate := resolved + [pending[0]];
      assert resolved + pending == candidate + pending[1..];
      if candidate !in e {
        SolidIsLinkFree(e, resolved);
        LinkFreeExtend(e, resolved, pending[0]);
        MissingIsLinkFree(e, candidate, pending[1..]);
      } else if e[candidate].Link? {
        found, dir, n, rest := true, resolved, pending[0], pending[1..];
      } else {
        SolidExtend(e, resolved, pending[0]);
        found, dir, n, rest := ResolveLooks(e, candidate, pending[1..], budget);
      }
    }
  }

  lemma SolidIsLinkFree(e: Entries, p: Path)
    requires Solid(e, p)
    ensures LinkFree(e, p)
  {
  }

  lemma SolidExtend(e: Entries, p: Path, n: string)
    requires Solid(e, p) && p + [n] in e && !e[p + [n]].Link?
    ensures Solid(e, p + [n])
  {
    var q := p + [n];
    forall k | 0 < k <= |q| ensures q[..k] in e && !e[q[..k]].Link? {
      if k <= |p| { assert q[..k] == p[..k]; } else { assert q[..k] == q; }
    }
  }

  lemma LinkFreeHasNoFirst(e: Entries, p: Path, dir: Path, n: string, rest: Path)
    requires LinkFree(e, p)
    ensures !FirstLink(e, p, dir, n, rest)
  {
    if p == dir + [n] + rest { assert p[..|dir| + 1] == dir + [n]; }
  }

  /**
   Resolving a path within a budget of links gives exactly the place that its links lead to: it succeeds if and only
   if at most that many links lead to a path without any.
   */
  lemma {:induction false} ResolveReaches(e: Entries, p: Path, budget: nat, r: Path)
    requires Shaped(e)
    ensures Resolve(e, [], p, budget) == Ok(r) <==> Reaches(e, p, r, budget)
    decreases budget
  {
    var found, dir, n, rest := LookAlong(e, p, budget);
    if !found {
      EndOfLinks(e, p, budget, r);
    } else if budget == 0 {
      LinkIsNoEnd(e, p, dir, n, rest);
    } else {
      var next := LinkTarget(dir, e[dir + [n]].target) + rest;
      OneLinkMore(e, p, next, budget, r, dir, n, rest);
      ResolveReaches(e, next, budget - 1, r);
    }
  }

  /** The same from the root. */
  lemma LookAlong(e: Entries, p: Path, budget: nat) returns (found: bool, dir: Path, n: string, rest: Path)
    requires Shaped(e)
    ensures found ==>
      && FirstLink(e, p, dir, n, rest)
      && Resolve(e, [], p, budget) ==
         if budget == 0 then Failed else Resolve(e, [], LinkTarget(dir, e[dir + [n]].target) + rest, budget - 1)
    ensures !found ==> LinkFree(e, p) && Resolve(e, [], p, budget) == Ok(p)
  {
    found, dir, n, rest := ResolveLooks(e, [], p, budget);
    assert [] + p == p;
  }

  lemma EndOfLinks(e: Entries, p: Path, budget: nat, r: Path)
    requires LinkFree(e, p)
    ensures Reaches(e, p, r, budget) <==> r == p
  {
    forall next ensures !LeadsTo(e, p, next) {
      LinkFreeLeadsNowhere(e, p, next);
    }
  }

  lemma LinkFreeLeadsNowhere(e: Entries, p: Path, q: Path)
    requires LinkFree(e, p)
    ensures !LeadsTo(e, p, q)
  {
    forall dir: Path, n, rest: Path ensures !FirstLink(e, p, dir, n, rest) {
      LinkFreeHasNoFirst(e, p, dir, n, rest);
    }
  }

  lemma LinkIsNoEnd(e: Entries, p: Path, dir: Path, n: string, rest: Path)
    requires FirstLink(e, p, dir, n, rest)
    ensures !LinkFree(e, p)
  {
    if LinkFree(e, p) { LinkFreeHasNoFirst(e, p, dir, n, rest); }
  }

  lemma OneLinkMore(
    e: Entries, p: Path, next: Path, budget: nat, r: Path, dir: Path, n: string, rest: Path)
    requires budget > 0 && FirstLink(e, p, dir, n, rest)
    requires next == LinkTarget(dir, e[dir + [n]].target) + rest
    ensures Reaches(e, p, r, budget) <==> Reaches(e, next, r, budget - 1)
  {
    LinkIsNoEnd(e, p, dir, n, rest);
    forall q ensures LeadsTo(e, p, q) <==> q == next {
      LeadsToIsClean(e, p, q, dir, n, rest);
    }
    assert LeadsTo(e, p, next);
  }

  /** A path is canonicalised to `r` exactly if at most forty links lead from it to `r`, where no link is left. */
  lemma CanonicalIsTheEndOfLinks(e: Entries, p: Path, r: Path)
    requires Shaped(e)
    ensures Canonical(e, p) == Ok(r) <==> Reaches(e, p, r, 40)
  {
    ResolveReaches(e, p, 40, r);
  }

  // ---------- What single links do ----------

  /** A link is worth its target, at the price of one link. */
  lemma LinkIsItsTarget(e: Entries, dir: Path, n: string, rest: Path, to: Path, budget: nat)
    requires Shaped(e) && Solid(e, dir) && IsLink(e, dir + [n])
    requires Walks(if e[dir + [n]].target.absolute then [] else dir, e[dir + [n]].target.parts, to)
    ensures Resolve(e, [], dir + [n] + rest, budget + 1) == Resolve(e, [], to + rest, budget)
  {
    var p := dir + [n] + rest;
    var found, dir', n', rest' := LookAlong(e, p, budget + 1);
    assert FirstLink(e, p, dir, n, rest);
    if found {
      FirstLinkIsUnique(e, p, dir, n, rest, dir', n', rest');
    } else {
      LinkFreeHasNoFirst(e, p, dir, n, rest);
    }
    WalksToClean(if e[dir + [n]].target.absolute then [] else dir, e[dir + [n]].target.parts, to);
  }

  lemma {:induction false} NamesWalkDown(base: Path, names: Path)
    requires IsClean(names)
    ensures Walks(base, names, base + names)
  {
    CleanKeepsClean(base, names);
    WalksToClean(base, names, base + names);
  }

  /** A relative target of names leads to these names beside the link. */
  lemma RelativeLinkLeadsBeside(e: Entries, dir: Path, n: string, names: Path, rest: Path, budget: nat)
    requires Shaped(e) && Solid(e, dir) && IsLink(e, dir + [n]) && IsClean(names)
    requires e[dir + [n]].target == Target(false, names)
    ensures Resolve(e, [], dir + [n] + rest, budget + 1) == Resolve(e, [], dir + names + rest, budget)
  {
    NamesWalkDown(dir, names);
    LinkIsItsTarget(e, dir, n, rest, dir + names, budget);
  }

  /** An absolute target of names leads to these names below the root. */
  lemma AbsoluteLinkLeadsThere(e: Entries, dir: Path, n: string, names: Path, rest: Path, budget: nat)
    requires Shaped(e) && Solid(e, dir) && IsLink(e, dir + [n]) && IsClean(names)
    requires e[dir + [n]].target == Target(true, names)
    ensures Resolve(e, [], dir + [n] + rest, budget + 1) == Resolve(e, [], names + rest, budget)
  {
    NamesWalkDown([], names);
    assert [] + names == names;
    LinkIsItsTarget(e, dir, n, rest, names, budget);
  }

  /** A relative target that begins with ".." leads on from the parent of the directory the link is in. */
  lemma ParentLinkLeadsUp(e: Entries, dir: Path, n: string, names: Path, rest: Path, budget: nat)
    requires Shaped(e) && Solid(e, dir) && dir != [] && IsLink(e, dir + [n]) && IsClean(names)
    requires e[dir + [n]].target == Target(false, [".."] + names)
    ensures Resolve(e, [], dir + [n] + rest, budget + 1) == Resolve(e, [], dir[..|dir| - 1] + names + rest, budget)
  {
    var up, pieces := dir[..|dir| - 1], [".."] + names;
    CleanKeepsClean(up, names);
    assert pieces[1..] == names;
    WalksToClean(dir, pieces, up + names);
    LinkIsItsTarget(e, dir, n, rest, up + names, budget);
  }
}
