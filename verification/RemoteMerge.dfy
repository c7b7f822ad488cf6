/**
 Copying onto a destination that may exist already: what the source names is replaced, everything else under the
 destination stays, and the source is never touched.
 */
module RemoteMerge {
  import opened Prelude
  import opened FileStore
  import opened Replacement
  import opened RemoteTrees

  function Backup(dst: Path): Path {
    WithSuffix(Temp(dst), BACKUP_SUFFIX)
  }

  /** A file may not be copied to a link, which would lead it elsewhere, and a link not to a directory. */
  predicate Suits(node: Node, place: Node) {
    match node
    case Dir => true
    case Link(_) => !place.Dir?
    case _ => !place.Link?
  }

  /** Every source name suits what is at its destination; links that the source does not name are left in peace. */
  ghost predicate Mergeable(e: Entries, src: Path, dst: Path) {
    Apart(src, dst) && forall rel: Path :: src + rel in e && dst + rel in e ==> Suits(e[src + rel], e[dst + rel])
  }

  /** A destination name of a source entry, or the scratch or backup name beside it. */
  ghost predicate Named(e: Entries, src: Path, dst: Path, q: Path) {
    exists rel: Path :: src + rel in e && (q == dst + rel || q == Temp(dst + rel) || q == Backup(dst + rel))
  }

  /** Nothing else has changed, except for directories made on the way to the destination. */
  ghost predicate Beside(e: Entries, e': Entries, src: Path, dst: Path) {
    && (forall q :: q in e && !Named(e, src, dst, q) ==> q in e' && e'[q] == e[q])
    && (forall q :: q in e' && q !in e && !Named(e, src, dst, q) ==> q <= dst && e'[q].Dir?)
  }

  predicate SameAt(e: Entries, e': Entries, q: Path) {
    (q in e <==> q in e') && (q in e && q in e' ==> e'[q] == e[q])
  }

  /** After a successful copy the backup name is as before, and so is the scratch name unless a file has used it up. */
  predicate CleanedUp(e: Entries, e': Entries, dst: Path, node: Node) {
    && SameAt(e, e', Backup(dst))
    && (if node.Dir? then SameAt(e, e', Temp(dst)) else Temp(dst) !in e')
  }

  /** No entry below has the scratch or the backup name of a file or link. */
  predicate Unscratched(e: Entries, src: Path) {
    forall p :: p in e && src < p && !e[p].Dir? ==> Temp(p) !in e && Backup(p) !in e
  }

  /** Every source entry has its copy. */
  ghost predicate Covers(e: Entries, e': Entries, src: Path, dst: Path) {
    forall rel: Path :: src + rel in e ==> dst + rel in e' && e'[dst + rel] == e[src + rel]
  }

  /** What copying onto a destination promises, whether it succeeds or not. */
  ghost predicate Merged(e: Entries, e': Entries, src: Path, dst: Path, err: Error) {
    && Kept(e, e', src)
    && Beside(e, e', src, dst)
    && (err == Nil ==> src in e && CleanedUp(e, e', dst, e[src]))
    && (err == Nil && Plain(e, src) && Unscratched(e, src) ==> Covers(e, e', src, dst))
  }

  // ---------- Names ----------

  lemma BackupIsBeside(dst: Path)
    ensures Temp(dst) != dst && Backup(dst) != dst && Backup(dst) != Temp(dst)
    ensures dst != [] ==> |Temp(dst)| == |Backup(dst)| == |dst|
    ensures dst != [] ==> Temp(dst)[..|dst| - 1] == Backup(dst)[..|dst| - 1] == dst[..|dst| - 1]
  {
    SuffixesDiffer(dst, TEMP_SUFFIX, BACKUP_SUFFIX);
    SuffixesDiffer(Temp(dst), BACKUP_SUFFIX, BACKUP_SUFFIX);
  }

  /** The names beside a path below `dst` lie below `dst` too. */
  lemma BesideBelow(dst: Path, rel: Path)
    requires rel != []
    ensures dst <= Temp(dst + rel) && dst <= Backup(dst + rel)
    ensures dst < Temp(dst + rel) && dst < Backup(dst + rel)
  {
    var q := dst + rel;
    BackupIsBeside(q);
    assert q[..|q| - 1] == dst + rel[..|rel| - 1];
    assert Temp(q)[..|dst|] == Temp(q)[..|q| - 1][..|dst|] == dst;
    assert Backup(q)[..|dst|] == Backup(q)[..|q| - 1][..|dst|] == dst;
  }

  /** A name a copy may touch lies at or below the destination, or is one of the two beside it. */
  lemma NamedIsNear(e: Entries, src: Path, dst: Path, q: Path)
    requires Named(e, src, dst, q)
    ensures dst <= q || q == Temp(dst) || q == Backup(dst)
  {
    var rel: Path :| src + rel in e && (q == dst + rel || q == Temp(dst + rel) || q == Backup(dst + rel));
    if rel == [] {
      assert dst + rel == dst;
    } else {
      BesideBelow(dst, rel);
    }
  }

  lemma ChildIsNamed(e: Entries, now: Entries, src: Path, dst: Path, n: string, q: Path)
    requires Kept(e, now, src) && Named(now, src + [n], dst + [n], q)
    ensures Named(e, src, dst, q)
  {
    var rel: Path :| src + [n] + rel in now
      && (q == dst + [n] + rel || q == Temp(dst + [n] + rel) || q == Backup(dst + [n] + rel));
    assert src + [n] + rel == src + ([n] + rel) && dst + [n] + rel == dst + ([n] + rel);
    assert src <= src + ([n] + rel);
  }

  lemma DestinationIsNamed(e: Entries, src: Path, dst: Path)
    requires src in e
    ensures Named(e, src, dst, dst) && Named(e, src, dst, Temp(dst)) && Named(e, src, dst, Backup(dst))
  {
    assert src + [] == src && dst + [] == dst;
    assert src + [] in e;
  }

  // ---------- Files and links ----------

  /** What replacing the entry at `dst` may have done: its three names only, and an occupied backup name stays. */
  ghost predicate LeafMerged(e: Entries, e': Entries, src: Path, dst: Path, node: Node, err: Error) {
    && (forall q :: q !in {dst, Temp(dst), Backup(dst)} ==> SameAt(e, e', q))
    && (Backup(dst) in e ==> SameAt(e, e', Backup(dst)))
    && (Temp(dst) == src ==> e' == e && err != Nil)
    && (err == Nil ==> e' == (e - {Temp(dst)})[dst := node])
  }

  lemma LeafKeepsSource(e: Entries, e': Entries, src: Path, dst: Path, node: Node, err: Error)
    requires Apart(src, dst) && src in e && LeafMerged(e, e', src, dst, node, err)
    ensures Kept(e, e', src)
  {
    forall q | src <= q ensures q in e <==> q in e' ensures q in e ==> e'[q] == e[q] {
      BackupIsBeside(dst);
      if q == Temp(dst) || q == Backup(dst) {
        SideIsOutside(src, dst, q);
      } else {
        assert q !in {dst, Temp(dst), Backup(dst)} && SameAt(e, e', q);
      }
    }
  }

  lemma LeafIsBeside(e: Entries, e': Entries, src: Path, dst: Path, node: Node, err: Error)
    requires src in e && LeafMerged(e, e', src, dst, node, err)
    ensures Beside(e, e', src, dst)
  {
    DestinationIsNamed(e, src, dst);
    forall q | !Named(e, src, dst, q) ensures SameAt(e, e', q) {
      assert q !in {dst, Temp(dst), Backup(dst)};
    }
  }

  lemma LeafIsAlone(e: Entries, src: Path, rel: Path)
    requires Plain(e, src) && src in e && !e[src].Dir? && src + rel in e
    ensures rel == []
  {
    assert (src + rel)[..|src|] == src;
  }

  lemma LeafIsMerged(e: Entries, e': Entries, src: Path, dst: Path, node: Node, err: Error)
    requires Apart(src, dst) && src in e && !e[src].Dir? && (node == e[src] || e[src].Other?)
    requires LeafMerged(e, e', src, dst, node, err)
    ensures Merged(e, e', src, dst, err)
  {
    BackupIsBeside(dst);
    LeafKeepsSource(e, e', src, dst, node, err);
    LeafIsBeside(e, e', src, dst, node, err);
    if err == Nil && Plain(e, src) {
      forall rel: Path | src + rel in e ensures rel == [] {
        LeafIsAlone(e, src, rel);
      }
      assert src + [] == src && dst + [] == dst;
    }
  }

  // ---------- Directories ----------

  /** Outside the entries named in `done`, what is in the destination directory was there before. */
  predicate OldBeyond(e: Entries, now: Entries, dst: Path, done: seq<string>) {
    forall q :: q in now && dst < q && q[|dst|] !in done ==> q in e && now[q] == e[q]
  }

  /** The copy of a directory onto another one, once the entries named in `done` have been copied. */
  ghost predicate PartlyMerged(e: Entries, now: Entries, src: Path, dst: Path, done: seq<string>) {
    && Kept(e, now, src)
    && Beside(e, now, src, dst)
    && dst in now && now[dst].Dir?
    && OldBeyond(e, now, dst, done)
    && SameAt(e, now, Temp(dst)) && SameAt(e, now, Backup(dst))
    && (Plain(e, src) && Unscratched(e, src) ==>
          forall i :: 0 <= i < |done| ==> Covers(e, now, src + [done[i]], dst + [done[i]]))
  }

  lemma DirectoryIsOpened(e: Entries, now: Entries, src: Path, dst: Path)
    requires Apart(src, dst) && src in e
    requires forall q :: q in e ==> q in now && now[q] == e[q]
    requires forall q :: q in now && q !in e ==> q <= dst && now[q].Dir?
    ensures Merged(e, now, src, dst, Failure)
    ensures dst in now && now[dst].Dir? ==> PartlyMerged(e, now, src, dst, [])
  {
    forall q | q in now && src <= q ensures q in e {
      assert q <= dst ==> src <= dst;
    }
    BackupIsBeside(dst);
  }

  lemma ChildrenAreApart(src: Path, dst: Path, n: string)
    requires Apart(src, dst)
    ensures Apart(src + [n], dst + [n])
  {
    var a, b := src + [n], dst + [n];
    assert a[..|src|] == src && b[..|dst|] == dst;
    if |src| <= |dst| {
      assert b[..|src|] == dst[..|src|];
    } else {
      assert a[..|dst|] == src[..|dst|];
    }
  }

  /** A child of the destination directory can be merged as long as its turn has not come. */
  lemma ChildIsMergeable(e: Entries, now: Entries, src: Path, dst: Path, done: seq<string>, n: string)
    requires Mergeable(e, src, dst) && Kept(e, now, src) && OldBeyond(e, now, dst, done) && n !in done
    ensures Mergeable(now, src + [n], dst + [n])
  {
    ChildrenAreApart(src, dst, n);
    forall rel: Path | src + [n] + rel in now && dst + [n] + rel in now
      ensures Suits(now[src + [n] + rel], now[dst + [n] + rel])
    {
      OldChild(e, now, src, dst, done, n, rel);
    }
  }

  lemma OldChild(e: Entries, now: Entries, src: Path, dst: Path, done: seq<string>, n: string, rel: Path)
    requires Kept(e, now, src) && OldBeyond(e, now, dst, done) && n !in done && dst + [n] + rel in now
    ensures src + [n] + rel == src + ([n] + rel) && dst + [n] + rel == dst + ([n] + rel)
    ensures var q := dst + ([n] + rel); q in e && now[q] == e[q]
    ensures SameAt(e, now, src + ([n] + rel))
  {
    var q := dst + ([n] + rel);
    assert src + [n] + rel == src + ([n] + rel) && dst + [n] + rel == q;
    assert dst < q && q[|dst|] == n;
    assert src <= src + ([n] + rel);
  }

  lemma ChildIsBeside(
    e: Entries, now: Entries, now': Entries, src: Path, dst: Path, n: string)
    requires Kept(e, now, src) && src + [n] in e
    requires Beside(e, now, src, dst) && Beside(now, now', src + [n], dst + [n])
    ensures Beside(e, now', src, dst)
  {
    forall q | !Named(e, src, dst, q) ensures !Named(now, src + [n], dst + [n], q) {
      if Named(now, src + [n], dst + [n], q) { ChildIsNamed(e, now, src, dst, n, q); }
    }
    forall q | q in now' && q !in e && !Named(e, src, dst, q) ensures q <= dst && now'[q].Dir? {
      if q !in now {
        assert dst + [n] == dst + ([n]) && src + ([n]) in e;
        assert q != dst + [n];
        assert q <= dst + [n];
      }
    }
  }

  lemma ChildNamesAreBelow(now: Entries, src: Path, dst: Path, n: string, q: Path)
    requires Named(now, src + [n], dst + [n], q)
    ensures dst <= q
  {
    NamedIsNear(now, src + [n], dst + [n], q);
    BesideBelow(dst, [n]);
    assert dst <= dst + [n];
  }

  lemma ChildKeepsSource(now: Entries, now': Entries, src: Path, dst: Path, n: string)
    requires Apart(src, dst) && Beside(now, now', src + [n], dst + [n])
    ensures Kept(now, now', src)
  {
    forall q | src <= q ensures !Named(now, src + [n], dst + [n], q) && !(q <= dst + [n]) {
      if Named(now, src + [n], dst + [n], q) { ChildNamesAreBelow(now, src, dst, n, q); }
      ApartAbove(src, dst, q);
      ApartAbove(src, dst, dst + [n]);
      assert dst <= dst + [n];
    }
  }

  /** Of what lies in the destination directory, a child's copy changes at most the child and its two side names. */
  lemma ChildIsLocal(now: Entries, now': Entries, src: Path, dst: Path, n: string, q: Path)
    requires src + [n] in now && Merged(now, now', src + [n], dst + [n], Nil)
    requires dst < q && q[|dst|] != n
    ensures q in now' ==> q in now && now'[q] == now[q]
    ensures q in now && (q == Temp(dst + [n]) ==> now[src + [n]].Dir?) ==> q in now' && now'[q] == now[q]
  {
    var sub := dst + [n];
    assert sub[|dst|] == n && !(sub <= q);
    if Named(now, src + [n], sub, q) {
      NamedIsNear(now, src + [n], sub, q);
    } else {
      assert q <= sub ==> q == sub;
    }
  }

  lemma NextIsOld(
    e: Entries, now: Entries, now': Entries, src: Path, dst: Path, done: seq<string>, n: string)
    requires OldBeyond(e, now, dst, done) && src + [n] in now && Merged(now, now', src + [n], dst + [n], Nil)
    ensures OldBeyond(e, now', dst, done + [n])
  {
    forall q | q in now' && dst < q && q[|dst|] !in done + [n] ensures q in e && now'[q] == e[q] {
      ChildIsLocal(now, now', src, dst, n, q);
    }
  }

  /** The copies of earlier entries stay as they are. */
  lemma EarlierStay(
    e: Entries, now: Entries, now': Entries, src: Path, dst: Path, m: string, n: string)
    requires Kept(e, now, src) && Unscratched(e, src) && m != n && src + [n] in now
    requires Merged(now, now', src + [n], dst + [n], Nil) && Covers(e, now, src + [m], dst + [m])
    ensures Covers(e, now', src + [m], dst + [m])
  {
    forall rel: Path | src + [m] + rel in e
      ensures dst + [m] + rel in now' && now'[dst + [m] + rel] == e[src + [m] + rel]
    {
      var q := dst + [m] + rel;
      assert dst < q && q[|dst|] == m;
      if q == Temp(dst + [n]) && !now[src + [n]].Dir? {
        ScratchOfAnother(e, src, dst, m, n, rel);
      }
      ChildIsLocal(now, now', src, dst, n, q);
    }
  }

  /** What lies at the scratch name in the destination has a source at the scratch name of the other source. */
  lemma ScratchOfAnother(e: Entries, src: Path, dst: Path, m: string, n: string, rel: Path)
    requires src + [m] + rel in e && dst + [m] + rel == Temp(dst + [n])
    ensures Temp(src + [n]) in e
  {
    assert Temp(dst + [n]) == dst + [n + TEMP_SUFFIX] && Temp(src + [n]) == src + [n + TEMP_SUFFIX];
    assert |rel| == 0;
    assert (dst + [m] + rel)[|dst|] == m && (dst + [n + TEMP_SUFFIX])[|dst|] == n + TEMP_SUFFIX;
    assert src + [m] + rel == src + [m];
  }

  lemma NewestCovers(e: Entries, now: Entries, now': Entries, src: Path, dst: Path, n: string)
    requires Kept(e, now, src) && Covers(now, now', src + [n], dst + [n])
    ensures Covers(e, now', src + [n], dst + [n])
  {
    forall rel: Path | src + [n] + rel in e
      ensures dst + [n] + rel in now' && now'[dst + [n] + rel] == e[src + [n] + rel]
    {
      assert src <= src + [n] + rel;
    }
  }

  lemma SubtreeIsUnscratched(e: Entries, now: Entries, src: Path, n: string)
    requires Unscratched(e, src) && Kept(e, now, src)
    ensures Unscratched(now, src + [n])
  {
    forall p | p in now && src + [n] < p && !now[p].Dir? ensures Temp(p) !in now && Backup(p) !in now {
      assert src <= p && p == src + p[|src|..];
      BesideBelow(src, p[|src|..]);
    }
  }

  /** What the copy of one more entry leaves of a directory's merge, wherever it stops. */
  lemma NextIsMerged(
    e: Entries, now: Entries, now': Entries, src: Path, dst: Path, done: seq<string>, n: string, err: Error)
    requires Apart(src, dst) && src + [n] in e && PartlyMerged(e, now, src, dst, done) && n !in done
    requires Merged(now, now', src + [n], dst + [n], err)
    ensures Kept(e, now', src) && Beside(e, now', src, dst)
    ensures err == Nil && (Plain(e, src) ==> Plain(now, src + [n])) ==> PartlyMerged(e, now', src, dst, done + [n])
  {
    assert src <= src + [n];
    ChildIsBeside(e, now, now', src, dst, n);
    ChildKeepsSource(now, now', src, dst, n);
    if err == Nil {
      NextIsOld(e, now, now', src, dst, done, n);
      DirectoryStays(now, now', src, dst, n);
      if Plain(e, src) && Unscratched(e, src) && Plain(now, src + [n]) {
        SubtreeIsUnscratched(e, now, src, n);
        forall i | 0 <= i < |done + [n]| ensures Covers(e, now', src + [(done + [n])[i]], dst + [(done + [n])[i]]) {
          if i < |done| {
            assert (done + [n])[i] == done[i];
            EarlierStay(e, now, now', src, dst, done[i], n);
          } else {
            NewestCovers(e, now, now', src, dst, n);
          }
        }
      }
    }
  }

  /** Copying an entry into a directory leaves the directory itself and the names beside it alone. */
  lemma DirectoryStays(now: Entries, now': Entries, src: Path, dst: Path, n: string)
    requires Beside(now, now', src + [n], dst + [n]) && dst in now && dst != []
    ensures SameAt(now, now', dst)
    ensures SameAt(now, now', Temp(dst)) && SameAt(now, now', Backup(dst))
  {
    BackupIsBeside(dst);
    LevelStays(now, now', src, dst, n, dst);
    LevelStays(now, now', src, dst, n, Temp(dst));
    LevelStays(now, now', src, dst, n, Backup(dst));
  }

  lemma LevelStays(now: Entries, now': Entries, src: Path, dst: Path, n: string, q: Path)
    requires Beside(now, now', src + [n], dst + [n]) && |q| == |dst| && (q == dst ==> q in now)
    ensures SameAt(now, now', q)
  {
    if Named(now, src + [n], dst + [n], q) { NamedIsLong(now, src + [n], dst + [n], q); }
    assert q <= dst + [n] ==> q == (dst + [n])[..|dst|] == dst;
  }

  lemma NamedIsLong(e: Entries, src: Path, dst: Path, q: Path)
    requires Named(e, src, dst, q) && dst != []
    ensures |q| >= |dst|
  {
    NamedIsNear(e, src, dst, q);
    BackupIsBeside(dst);
  }

  /** When every name has had its turn, the directory is merged. */
  lemma DirectoryIsMerged(e: Entries, now: Entries, src: Path, dst: Path, names: seq<string>)
    requires PartlyMerged(e, now, src, dst, names) && src in e && e[src].Dir?
    requires forall n :: n in names <==> src + [n] in e
    ensures Merged(e, now, src, dst, Nil)
  {
    if Plain(e, src) && Unscratched(e, src) {
      forall rel: Path | src + rel in e ensures dst + rel in now && now[dst + rel] == e[src + rel] {
        if rel == [] {
          assert src + rel == src && dst + rel == dst;
        } else {
          ChildCovers(e, now, src, dst, names, rel);
        }
      }
    }
  }

  lemma ChildCovers(e: Entries, now: Entries, src: Path, dst: Path, names: seq<string>, rel: Path)
    requires rel != [] && src + rel in e && Plain(e, src) && forall n :: n in names <==> src + [n] in e
    requires forall i :: 0 <= i < |names| ==> Covers(e, now, src + [names[i]], dst + [names[i]])
    ensures dst + rel in now && now[dst + rel] == e[src + rel]
  {
    var n, rest := rel[0], rel[1..];
    assert src + rel == src + [n] + rest && dst + rel == dst + [n] + rest;
    FirstIsThere(e, src, rel);
    var i :| 0 <= i < |names| && names[i] == n;
    assert Covers(e, now, src + [names[i]], dst + [names[i]]);
  }

  lemma FirstIsThere(e: Entries, src: Path, rel: Path)
    requires rel != [] && src + rel in e && Plain(e, src)
    ensures src + [rel[0]] in e
  {
    var p := src + rel;
    if |rel| == 1 {
      assert rel == [rel[0]];
    } else {
      assert p[..|src| + 1] == src + [rel[0]] && src <= p;
    }
  }
}
