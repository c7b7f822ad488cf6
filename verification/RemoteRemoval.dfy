/** Recursive removal on the remote side. Links are removed as links; every operation may fail. */
module RemoteRemoval {
  import opened Prelude
  import opened FileStore
  import opened RemotePath
  import opened RemoteTrees
  import opened RemoteCopy

  /** Entries at and below `p` may be gone; nothing else has changed, and nothing is new. */
  ghost predicate Pruned(e: Entries, e': Entries, p: Path) {
    && (forall q :: q in e' ==> q in e && e'[q] == e[q])
    && (forall q :: q in e && !(p <= q) ==> q in e')
  }

  lemma PrunedFurther(e: Entries, mid: Entries, e': Entries, p: Path, q: Path)
    requires Pruned(e, mid, p) && Pruned(mid, e', q) && p <= q
    ensures Pruned(e, e', p)
  {
  }

  lemma PrefixIsDirectory(e: Entries, p: Path, q: Path)
    requires Shaped(e) && q in e
    ensures p < q ==> p in e && e[p].Dir?
    ensures p < q ==> |p| < |q| && p + [q[|p|]] in e
  {
    if p < q {
      assert q[..|p|] == p && q[..|p| + 1] == p + [q[|p|]];
      assert |p| + 1 == |q| ==> q[..|p| + 1] == q;
    }
  }

  /** What has nothing below it can be taken away without leaving anything in the air. */
  lemma RemovalKeepsShape(e: Entries, p: Path)
    requires Shaped(e) && forall q :: q in e ==> !(p < q)
    ensures Shaped(e - {p}) && Pruned(e, e - {p}, p) && Clear(e - {p}, p)
  {
    forall q, k | q in e - {p} && 0 <= k < |q| ensures q[..k] in e - {p} && (e - {p})[q[..k]].Dir? {
      assert q[..k] in e;
      assert q[..k] == p ==> p < q;
    }
    forall q | q in e - {p} ensures !(p <= q) {
      assert p <= q ==> p == q || p < q;
    }
  }

  lemma NothingBelowLeaf(e: Entries, p: Path)
    requires Shaped(e) && p in e && !e[p].Dir?
    ensures forall q :: q in e ==> !(p < q)
  {
    forall q | q in e ensures !(p < q) {
      PrefixIsDirectory(e, p, q);
    }
  }

  /** A directory without entries has nothing below it. */
  lemma NothingBelowEmpty(e: Entries, p: Path)
    requires Shaped(e) && Children(e, p) == {}
    ensures forall q :: q in e ==> !(p < q)
  {
    forall n: string ensures p + [n] !in e {
      assert (p + [n])[|p|] == n;
      assert p + [n] in e ==> n in Children(e, p);
    }
    forall q | q in e ensures !(p < q) {
      PrefixIsDirectory(e, p, q);
    }
  }

  lemma NothingBelowMissing(e: Entries, p: Path)
    requires Shaped(e) && p !in e
    ensures Clear(e, p)
  {
    forall q | q in e ensures !(p <= q) {
      PrefixIsDirectory(e, p, q);
      assert p <= q ==> p == q || p < q;
    }
  }

  /** The server removes a directory only when it is empty. */
  method RemoveDirectory(d: Disk, p: Path) returns (err: Error)
    requires Shaped(d.entries)
    modifies d
    ensures err == Nil ==> p in old(d.entries) && d.entries == old(d.entries) - {p} && Clear(d.entries, p)
    ensures err != Nil ==> d.entries == old(d.entries)
    ensures Shaped(d.entries)
    ensures old(d.faults) <= d.faults
    ensures p in old(d.entries) && Children(old(d.entries), p) == {} && d.faults == old(d.faults) ==> err == Nil
  {
    var works := d.Works();
    if !works || p !in d.entries || Children(d.entries, p) != {} {
      return Failure;
    }
    NothingBelowEmpty(d.entries, p);
    RemovalKeepsShape(d.entries, p);
    err := d.Remove(p);
  }

  lemma NoChildrenLeft(e: Entries, now: Entries, p: Path, names: seq<string>)
    requires Pruned(e, now, p) && forall n :: n in names <==> p + [n] in e
    requires forall j :: 0 <= j < |names| ==> p + [names[j]] !in now
    ensures Children(now, p) == {}
  {
    forall n: string ensures p + [n] !in now {
      assert p + [n] in now ==> n in names;
    }
    forall q: Path | |q| == |p| + 1 && p <= q ensures q == p + [q[|p|]] {}
  }

  lemma FewerBelow(e: Entries, now: Entries, p: Path, n: string)
    requires p in e && Pruned(e, now, p)
    ensures |Below(now, p + [n])| < |Below(e, p)|
  {
    var inner, outer := Below(now, p + [n]), Below(e, p);
    assert p <= p + [n] && p !in inner && p in outer;
    assert inner <= outer - {p};
    SubsetSize(inner, outer - {p});
  }

  lemma SubsetSize(a: set<Path>, b: set<Path>)
    requires a <= b
    ensures |a| <= |b|
  {
    assert b == a + (b - a);
  }

  /**
   removeRemoteEntry. Success means that nothing is left at or below the path; whatever happens, nothing beside it is
   touched, so a link goes without what it leads to. When nothing fails, it succeeds.
   */
  method RemoveRemoteEntry(d: Disk, p: Path) returns (err: Error)
    requires Shaped(d.entries)
    modifies d
    ensures err == Nil ==> Clear(d.entries, p)
    ensures Pruned(old(d.entries), d.entries, p) && Shaped(d.entries)
    ensures old(d.faults) <= d.faults && (d.faults == old(d.faults) ==> err == Nil)
    decreases |Below(d.entries, p)|
  {
    var goesOn := d.Works();
    if !goesOn {
      return Failure;
    }
    var info := d.Lstat(p);
    if info.Missing? {
      NothingBelowMissing(d.entries, p);
      return Nil;
    }
    if info.Unknown? {
      return Failure;
    }
    if !info.node.Dir? {
      NothingBelowLeaf(d.entries, p);
      RemovalKeepsShape(d.entries, p);
      err := d.Remove(p);
      return;
    }
    var names := ReadDir(d, p);
    if names.Failed? {
      return Failure;
    }
    ghost var before := d.entries;
    var i := 0;
    while i < |names.value|
      invariant 0 <= i <= |names.value|
      invariant Pruned(before, d.entries, p) && Shaped(d.entries) && p in d.entries
      invariant old(d.faults) <= d.faults
      invariant forall j :: 0 <= j < i ==> p + [names.value[j]] !in d.entries
    {
      ghost var now := d.entries;
      FewerBelow(before, now, p, names.value[i]);
      err := RemoveRemoteEntry(d, p + [names.value[i]]);
      PrunedFurther(before, now, d.entries, p, p + [names.value[i]]);
      if err != Nil {
        return;
      }
      assert p + [names.value[i]] <= p + [names.value[i]];
      i := i + 1;
    }
    NoChildrenLeft(before, d.entries, p, names.value);
    err := RemoveDirectory(d, p);
  }
}
