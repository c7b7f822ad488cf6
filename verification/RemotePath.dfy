/**
 Canonicalisation of remote paths through symbolic links, component by component, with a bounded number of links.
 Absolute paths are lists of names; the root is the empty list.
 */
module RemotePath {
  import opened Prelude
  import opened FileStore

  const MAX_SYMBOLIC_LINK_DEPTH := 40

  // ---------- Lexical cleaning ----------

  /** path.Clean of `parts` appended to the clean absolute path `base`. */
  function Clean(base: Path, parts: seq<string>): Path
    decreases |parts|
  {
    if parts == [] then base
    else if parts[0] == "" || parts[0] == "." then Clean(base, parts[1..])
    else if parts[0] == ".." then Clean(if base == [] then [] else base[..|base| - 1], parts[1..])
    else Clean(base + [parts[0]], parts[1..])
  }

  predicate IsName(s: string) {
    s != "" && s != "." && s != ".."
  }

  predicate IsClean(p: Path) {
    forall i :: 0 <= i < |p| ==> IsName(p[i])
  }

  lemma {:induction false} CleanIsClean(base: Path, parts: seq<string>)
    requires IsClean(base)
    ensures IsClean(Clean(base, parts))
    decreases |parts|
  {
    if parts != [] {
      if parts[0] == "" || parts[0] == "." {
        CleanIsClean(base, parts[1..]);
      } else if parts[0] == ".." {
        CleanIsClean(if base == [] then [] else base[..|base| - 1], parts[1..]);
      } else {
        CleanIsClean(base + [parts[0]], parts[1..]);
      }
    }
  }

  lemma {:induction false} CleanKeepsClean(base: Path, p: Path)
    requires IsClean(p)
    ensures Clean(base, p) == base + p
    decreases |p|
  {
    if p != [] {
      CleanKeepsClean(base + [p[0]], p[1..]);
      assert base + [p[0]] + p[1..] == base + p;
    }
  }

  // ---------- Resolution ----------

  predicate IsLink(e: Entries, p: Path) {
    p in e && e[p].Link?
  }

  /** The absolute path a link at the end of `resolved` leads to. */
  function LinkTarget(resolved: Path, target: Target): Path {
    Clean(if target.absolute then [] else resolved, target.parts)
  }

  /** The resolved prefix, the components still to look at, and how many more links may be followed. */
  function Resolve(e: Entries, resolved: Path, pending: Path, budget: nat): Result<Path>
    decreases budget, |pending|
  {
    if pending == [] then Ok(resolved)
    else
      var candidate := resolved + [pending[0]];
      if candidate !in e then Ok(candidate + pending[1..])
      else if !e[candidate].Link? then Resolve(e, candidate, pending[1..], budget)
      else if budget == 0 then Failed
      else Resolve(e, [], LinkTarget(resolved, e[candidate].target) + pending[1..], budget - 1)
  }

  function Canonical(e: Entries, p: Path): Result<Path> {
    Resolve(e, [], p, MAX_SYMBOLIC_LINK_DEPTH)
  }

  /** canonicalRemotePath on a cleaned absolute path; any lookup may fail, and nothing else makes it fail. */
  method CanonicalRemotePath(d: Disk, cleanPath: Path) returns (r: Result<Path>)
    modifies d`attempts, d`faults
    ensures r.Ok? || d.faults == old(d.faults) ==> r == Canonical(d.entries, cleanPath)
    ensures old(d.faults) <= d.faults
  {
    var pending, resolved: Path, linkDepth := cleanPath, [], 0;
    while |pending| > 0
      invariant linkDepth <= MAX_SYMBOLIC_LINK_DEPTH
      invariant Resolve(d.entries, resolved, pending, MAX_SYMBOLIC_LINK_DEPTH - linkDepth) ==
        Canonical(d.entries, cleanPath)
      invariant d.faults == old(d.faults)
      decreases MAX_SYMBOLIC_LINK_DEPTH - linkDepth, |pending|
    {
      var component := pending[0];
      pending := pending[1..];
      var candidate := resolved + [component];
      var info := d.Lstat(candidate);
      if info.Missing? {
        return Ok(candidate + pending);
      }
      if info.Unknown? {
        return Failed;
      }
      if !info.node.Link? {
        resolved := candidate;
      } else {
        linkDepth := linkDepth + 1;
        if linkDepth > MAX_SYMBOLIC_LINK_DEPTH {
          return Failed;
        }
        var readable := d.Works();
        if !readable {
          return Failed;
        }
        pending := LinkTarget(resolved, info.node.target) + pending;
        resolved := [];
      }
    }
    return Ok(resolved);
  }

  // ---------- What resolution guarantees ----------

  /** Every entry lies in a directory that exists. */
  predicate Shaped(e: Entries) {
    forall p, k :: p in e && 0 <= k < |p| ==> p[..k] in e && e[p[..k]].Dir?
  }

  /** No existing prefix of `p` is a link. */
  predicate LinkFree(e: Entries, p: Path) {
    forall k :: 0 < k <= |p| ==> !IsLink(e, p[..k])
  }

  lemma LinkFreeExtend(e: Entries, p: Path, name: string)
    requires LinkFree(e, p) && !IsLink(e, p + [name])
    ensures LinkFree(e, p + [name])
  {
    var q := p + [name];
    forall k | 0 < k <= |q| ensures !IsLink(e, q[..k]) {
      if k <= |p| { assert q[..k] == p[..k]; } else { assert q[..k] == q; }
    }
  }

  /** Below a missing entry nothing exists. */
  lemma MissingIsLinkFree(e: Entries, p: Path, rest: Path)
    requires Shaped(e) && LinkFree(e, p) && p !in e
    ensures LinkFree(e, p + rest)
  {
    var q := p + rest;
    forall k | 0 < k <= |q| ensures !IsLink(e, q[..k]) {
      if k <= |p| {
        assert q[..k] == p[..k];
      } else {
        assert q[..k][..|p|] == p;
      }
    }
  }

  /** Every existing prefix of the result is a real entry, not a link. */
  lemma {:induction false} ResolveIsLinkFree(e: Entries, resolved: Path, pending: Path, budget: nat)
    requires Shaped(e) && LinkFree(e, resolved)
    requires Resolve(e, resolved, pending, budget).Ok?
    ensures LinkFree(e, Resolve(e, resolved, pending, budget).value)
    decreases budget, |pending|
  {
    if pending != [] {
      var candidate := resolved + [pending[0]];
      if candidate !in e {
        LinkFreeExtend(e, resolved, pending[0]);
        MissingIsLinkFree(e, candidate, pending[1..]);
      } else if !e[candidate].Link? {
        LinkFreeExtend(e, resolved, pending[0]);
        ResolveIsLinkFree(e, candidate, pending[1..], budget);
      } else {
        ResolveIsLinkFree(e, [], LinkTarget(resolved, e[candidate].target) + pending[1..], budget - 1);
      }
    }
  }

  lemma {:induction false} ResolveIsClean(e: Entries, resolved: Path, pending: Path, budget: nat)
    requires IsClean(resolved) && IsClean(pending)
    requires Resolve(e, resolved, pending, budget).Ok?
    ensures IsClean(Resolve(e, resolved, pending, budget).value)
    decreases budget, |pending|
  {
    if pending != [] {
      var candidate := resolved + [pending[0]];
      if candidate in e {
        if e[candidate].Link? {
          var target := e[candidate].target;
          CleanIsClean(if target.absolute then [] else resolved, target.parts);
          ResolveIsClean(e, [], LinkTarget(resolved, target) + pending[1..], budget - 1);
        } else {
          ResolveIsClean(e, candidate, pending[1..], budget);
        }
      }
    }
  }

  /** A path without links is resolved to itself, however few links may be followed. */
  lemma {:induction false} LinkFreeResolvesToItself(e: Entries, resolved: Path, pending: Path, budget: nat)
    requires LinkFree(e, resolved + pending)
    ensures Resolve(e, resolved, pending, budget) == Ok(resolved + pending)
    decreases |pending|
  {
    if pending == [] {
      assert resolved + pending == resolved;
    } else {
      var candidate, whole := resolved + [pending[0]], resolved + pending;
      assert candidate + pending[1..] == whole && whole[..|candidate|] == candidate;
      LinkFreeResolvesToItself(e, candidate, pending[1..], budget);
    }
  }

  /** Canonicalisation is idempotent on a fixed file system, and its fixed points are the paths without links. */
  lemma CanonicalIdempotent(e: Entries, p: Path)
    requires Shaped(e)
    ensures Canonical(e, p).Ok? ==>
      LinkFree(e, Canonical(e, p).value) && Canonical(e, Canonical(e, p).value) == Canonical(e, p)
    ensures Canonical(e, p) == Ok(p) <==> LinkFree(e, p)
  {
    if Canonical(e, p).Ok? {
      var q := Canonical(e, p).value;
      ResolveIsLinkFree(e, [], p, MAX_SYMBOLIC_LINK_DEPTH);
      assert [] + q == q;
      LinkFreeResolvesToItself(e, [], q, MAX_SYMBOLIC_LINK_DEPTH);
    }
    if LinkFree(e, p) {
      assert [] + p == p;
      LinkFreeResolvesToItself(e, [], p, MAX_SYMBOLIC_LINK_DEPTH);
    }
  }

  /** Links that lead back to themselves end in an error, not in a loop. */
  lemma SelfLinkIsRefused(e: Entries, name: string, budget: nat)
    requires IsName(name) && IsLink(e, [name]) && e[[name]].target == Target(false, [name])
    ensures Resolve(e, [], [name], budget).Failed?
    decreases budget
  {
    var p: Path, t := [name], e[[name]].target;
    assert p[1..] == [] && [] + [p[0]] == p;
    if budget > 0 {
      CleanKeepsClean([], p);
      assert LinkTarget([], t) + p[1..] == p;
      SelfLinkIsRefused(e, name, budget - 1);
    }
  }

  // ---------- Entry paths and containment ----------

  /** The parent is resolved, the entry itself is not followed. */
  function EntryPath(e: Entries, p: Path): Result<Path> {
    if p == [] then Ok([])
    else
      match Canonical(e, p[..|p| - 1])
      case Failed => Failed
      case Ok(parent) => Ok(parent + [p[|p| - 1]])
  }

  /** An entry path leads through no link before its last component. */
  lemma EntryPathParentIsLinkFree(e: Entries, p: Path)
    requires Shaped(e) && EntryPath(e, p).Ok?
    ensures var q := EntryPath(e, p).value; q != [] ==> LinkFree(e, q[..|q| - 1])
    ensures var q := EntryPath(e, p).value; !IsLink(e, q) ==> LinkFree(e, q) && Canonical(e, q) == Ok(q)
  {
    var q := EntryPath(e, p).value;
    if p != [] {
      var parent := Canonical(e, p[..|p| - 1]).value;
      CanonicalIdempotent(e, p[..|p| - 1]);
      assert q[..|q| - 1] == parent;
      if !IsLink(e, q) { LinkFreeExtend(e, parent, p[|p| - 1]); }
    }
    CanonicalIdempotent(e, q);
  }

  /** canonicalRemoteEntryPath. */
  method CanonicalRemoteEntryPath(d: Disk, absolutePath: Path) returns (r: Result<Path>)
    modifies d`attempts, d`faults
    ensures r.Ok? || d.faults == old(d.faults) ==> r == EntryPath(d.entries, absolutePath)
    ensures old(d.faults) <= d.faults
  {
    if absolutePath == [] {
      return Ok([]);
    }
    var parent := CanonicalRemotePath(d, absolutePath[..|absolutePath| - 1]);
    match parent {
      case Failed => r := Failed;
      case Ok(p) => r := Ok(p + [absolutePath[|absolutePath| - 1]]);
    }
  }

  /** remotePathContains. */
  predicate Contains(parent: Path, candidate: Path) {
    parent <= candidate
  }
}
