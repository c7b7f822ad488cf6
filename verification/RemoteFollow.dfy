/**
 Copying onto a destination tree that holds links: a file copied onto a link lands where the link leads, and the link
 stays. What a copy of a tree without links does then depends only on the links there were before it began.
 */
module RemoteFollow {
  import opened Prelude
  import opened FileStore
  import opened Replacement
  import opened RemotePath
  import opened RemoteTrees
  import opened RemoteMerge

  // ---------- Resolution depends on links only ----------

  /** The same links with the same targets. */
  ghost predicate SameLinks(e: Entries, e': Entries) {
    && (forall q :: IsLink(e, q) ==> q in e' && e'[q] == e[q])
    && (forall q :: IsLink(e', q) ==> q in e && e[q] == e'[q])
  }

  predicate DirsStay(e: Entries, e': Entries) {
    forall q :: q in e && e[q].Dir? ==> q in e' && e'[q].Dir?
  }

  /** Every link lies in directories that exist. */
  ghost predicate LinksRooted(e: Entries) {
    forall q, k :: IsLink(e, q) && 0 <= k < |q| ==> q[..k] in e && e[q[..k]].Dir?
  }

  /** Where no link lies below, the rest of a path is taken as it is. */
  lemma {:induction false} NoLinksBelow(e: Entries, resolved: Path, pending: Path, budget: nat)
    requires forall q :: resolved < q ==> !IsLink(e, q)
    ensures Resolve(e, resolved, pending, budget) == Ok(resolved + pending)
    decreases |pending|
  {
    if pending == [] {
      assert resolved + pending == resolved;
    } else {
      var candidate := resolved + [pending[0]];
      assert resolved < candidate && candidate + pending[1..] == resolved + pending && !IsLink(e, candidate);
      NoLinksBelow(e, candidate, pending[1..], budget);
    }
  }

  lemma MissingHasNoLinks(e: Entries, e': Entries, p: Path)
    requires LinksRooted(e) && SameLinks(e, e') && p !in e
    ensures forall q :: p < q ==> !IsLink(e', q)
  {
    forall q | p < q ensures !IsLink(e', q) {
      assert q[..|p|] == p;
    }
  }

  /** Creating, replacing or removing files and directories leads no path elsewhere. */
  lemma {:induction false} ResolutionDependsOnLinks(
    e: Entries, e': Entries, resolved: Path, pending: Path, budget: nat)
    requires SameLinks(e, e') && LinksRooted(e) && LinksRooted(e')
    ensures Resolve(e', resolved, pending, budget) == Resolve(e, resolved, pending, budget)
    decreases budget, |pending|
  {
    if pending != [] {
      var candidate := resolved + [pending[0]];
      assert IsLink(e, candidate) <==> IsLink(e', candidate);
      if IsLink(e, candidate) {
        if budget > 0 {
          ResolutionDependsOnLinks(
            e, e', [], LinkTarget(resolved, e[candidate].target) + pending[1..], budget - 1);
        }
      } else if candidate in e && candidate in e' {
        ResolutionDependsOnLinks(e, e', candidate, pending[1..], budget);
      } else if candidate in e {
        MissingHasNoLinks(e', e, candidate);
        NoLinksBelow(e, candidate, pending[1..], budget);
      } else if candidate in e' {
        MissingHasNoLinks(e, e', candidate);
        NoLinksBelow(e', candidate, pending[1..], budget);
      }
    }
  }

  // ---------- Where a file lands ----------

  /** The entry that copying a file to `dst` replaces. */
  function FileDestination(e: Entries, dst: Path): Result<Path> {
    if IsLink(e, dst) then Canonical(e, dst) else Ok(dst)
  }

  lemma SameDestination(e: Entries, e': Entries, dst: Path)
    requires SameLinks(e, e') && LinksRooted(e) && LinksRooted(e')
    ensures FileDestination(e', dst) == FileDestination(e, dst)
  {
    ResolutionDependsOnLinks(e, e', [], dst, MAX_SYMBOLIC_LINK_DEPTH);
  }

  /** Copying a file to `to` may change `q`: where it lands, or the scratch or backup name beside that. */
  predicate Touches(e: Entries, to: Path, q: Path) {
    FileDestination(e, to).Ok? && var at := FileDestination(e, to).value; q == at || q == Temp(at) || q == Backup(at)
  }

  ghost predicate Touched(e: Entries, src: Path, dst: Path, q: Path) {
    exists rel: Path :: src + rel in e && !e[src + rel].Dir? && Touches(e, dst + rel, q)
  }

  /** The source holds no links, and no file of it lands in or beside it. */
  ghost predicate Followable(e: Entries, src: Path, dst: Path) {
    && Apart(src, dst) && LinksRooted(e)
    && (forall p :: p in e && src <= p ==> !e[p].Link?)
    && (forall q :: Touched(e, src, dst, q) ==> !(src <= q))
  }

  /** No two files land at the same place, or one at a name that another one uses on the way. */
  ghost predicate Separate(e: Entries, src: Path, dst: Path) {
    forall a: Path, b: Path ::
      && src + a in e && !e[src + a].Dir? && src + b in e && !e[src + b].Dir? && a != b
      && FileDestination(e, dst + a).Ok? ==>
        !Touches(e, dst + b, FileDestination(e, dst + a).value)
  }

  /** Every directory is there, and every file has landed. */
  ghost predicate Arrived(e: Entries, e': Entries, src: Path, dst: Path) {
    forall rel: Path :: src + rel in e ==> ArrivedAt(e, e', e[src + rel], dst + rel)
  }

  predicate ArrivedAt(e: Entries, e': Entries, node: Node, to: Path) {
    if node.Dir? then to in e' && e'[to].Dir?
    else FileDestination(e, to).Ok? && var at := FileDestination(e, to).value; at in e' && e'[at] == node
  }

  predicate CopyOfDir(e: Entries, src: Path, dst: Path, q: Path) {
    dst <= q && src + q[|dst|..] in e && e[src + q[|dst|..]].Dir?
  }

  /** Only a directory has the directories above its copy made. */
  predicate OnTheWay(e: Entries, src: Path, dst: Path, q: Path) {
    q < dst && src in e && e[src].Dir?
  }

  /** What has not been touched is as before, and what is new are directories. */
  ghost predicate Confined(e: Entries, e': Entries, src: Path, dst: Path) {
    && (forall q :: q in e && !Touched(e, src, dst, q) ==> q in e' && e'[q] == e[q])
    && (forall q :: q in e' && q !in e && !Touched(e, src, dst, q) ==>
          e'[q].Dir? && (OnTheWay(e, src, dst, q) || CopyOfDir(e, src, dst, q)))
  }

  /** The source is as before, and so are all links, wherever they are. */
  ghost predicate Steady(e: Entries, e': Entries, src: Path, dst: Path) {
    Kept(e, e', src) && SameLinks(e, e') && DirsStay(e, e') && Confined(e, e', src, dst)
  }

  /** What copying onto a tree with links promises, whether it succeeds or not. */
  ghost predicate Followed(e: Entries, e': Entries, src: Path, dst: Path, err: Error) {
    && Steady(e, e', src, dst)
    && (err == Nil && Plain(e, src) && Separate(e, src, dst) ==> Arrived(e, e', src, dst))
  }

  // ---------- Files ----------

  /** Nothing but files has changed, come or gone. */
  predicate OnlyFiles(e: Entries, e': Entries) {
    && (forall q :: q in e && !e[q].File? ==> q in e' && e'[q] == e[q])
    && (forall q :: q in e' && !e'[q].File? ==> q in e && e[q] == e'[q])
  }

  /** At most the destination, its scratch name and its backup name have changed. */
  predicate OnlyReplaced(e: Entries, e': Entries, dest: Path) {
    var names := {dest, Temp(dest), Backup(dest)};
    && e' - names == e - names
    && (Backup(dest) in e ==> SameAt(e, e', Backup(dest)))
  }

  lemma OthersStay(e: Entries, e': Entries, dest: Path, q: Path)
    requires OnlyReplaced(e, e', dest) && q !in {dest, Temp(dest), Backup(dest)}
    ensures SameAt(e, e', q)
  {
    var names := {dest, Temp(dest), Backup(dest)};
    assert q in e <==> q in e - names;
    assert q in e' <==> q in e' - names;
    assert q in e && q in e' ==> (e' - names)[q] == (e - names)[q];
  }

  /** What copying a file, or an entry read like one, has made of the entry it lands at. */
  ghost predicate FileLanded(e: Entries, e': Entries, dst: Path, node: Node, err: Error) {
    && OnlyFiles(e, e')
    && match FileDestination(e, dst) {
      case Failed => e' == e && err != Nil
      case Ok(at) => OnlyReplaced(e, e', at) && (err == Nil ==> at in e' && e'[at] == node)
    }
  }

  lemma FileIsFollowed(e: Entries, e': Entries, src: Path, dst: Path, node: Node, err: Error)
    requires Followable(e, src, dst) && src in e && !e[src].Dir? && (node == e[src] || e[src].Other?)
    requires FileLanded(e, e', dst, node, err)
    ensures Followed(e, e', src, dst, err)
  {
    assert src + [] == src && dst + [] == dst;
    forall q | !Touched(e, src, dst, q) ensures SameAt(e, e', q) {
      if FileDestination(e, dst).Ok? {
        assert src + [] in e && !Touches(e, dst + [], q);
        OthersStay(e, e', FileDestination(e, dst).value, q);
      }
    }
    forall q | src <= q ensures q in e <==> q in e' ensures q in e ==> e'[q] == e[q] {
      assert !Touched(e, src, dst, q) && SameAt(e, e', q);
    }
    if Plain(e, src) {
      forall rel: Path | src + rel in e ensures rel == [] {
        LeafIsAlone(e, src, rel);
      }
    }
  }

  // ---------- Directories ----------

  ghost predicate PartlyFollowed(e: Entries, now: Entries, src: Path, dst: Path, done: seq<string>) {
    && Steady(e, now, src, dst)
    && dst in now && now[dst].Dir?
    && (Plain(e, src) && Separate(e, src, dst) ==>
          forall i :: 0 <= i < |done| ==> Arrived(e, now, src + [done[i]], dst + [done[i]]))
  }

  lemma DirectoryIsReady(e: Entries, now: Entries, src: Path, dst: Path)
    requires Followable(e, src, dst) && src in e && e[src].Dir?
    requires forall q :: q in e ==> q in now && now[q] == e[q]
    requires forall q :: q in now && q !in e ==> q <= dst && now[q].Dir?
    ensures Followed(e, now, src, dst, Failure)
    ensures dst in now && now[dst].Dir? ==> PartlyFollowed(e, now, src, dst, [])
  {
    forall q | q in now && src <= q ensures q in e {
      assert q <= dst ==> src <= dst;
    }
    assert src + dst[|dst|..] == src;
    forall q | q in now && q !in e ensures OnTheWay(e, src, dst, q) || CopyOfDir(e, src, dst, q) {
      assert q == dst || q < dst;
    }
  }

  lemma RootedStill(e: Entries, now: Entries)
    requires LinksRooted(e) && SameLinks(e, now) && DirsStay(e, now)
    ensures LinksRooted(now)
  {
  }

  /** What a child touches now, its directory touched from the beginning. */
  lemma ChildIsTouched(e: Entries, now: Entries, src: Path, dst: Path, n: string, q: Path)
    requires LinksRooted(e) && Kept(e, now, src) && SameLinks(e, now) && DirsStay(e, now)
    requires Touched(now, src + [n], dst + [n], q)
    ensures Touched(e, src, dst, q)
  {
    var rel: Path :|
      src + [n] + rel in now && !now[src + [n] + rel].Dir? && Touches(now, dst + [n] + rel, q);
    RootedStill(e, now);
    SameDestination(e, now, dst + [n] + rel);
    assert src + [n] + rel == src + ([n] + rel) && dst + [n] + rel == dst + ([n] + rel);
    assert src <= src + ([n] + rel);
  }

  lemma ChildIsFollowable(e: Entries, now: Entries, src: Path, dst: Path, n: string)
    requires Followable(e, src, dst) && Kept(e, now, src) && SameLinks(e, now) && DirsStay(e, now)
    ensures Followable(now, src + [n], dst + [n])
  {
    ChildrenAreApart(src, dst, n);
    RootedStill(e, now);
    forall p | p in now && src + [n] <= p ensures !now[p].Link? {
      assert src <= src + [n] && p in e;
    }
    forall q | Touched(now, src + [n], dst + [n], q) ensures !(src + [n] <= q) {
      ChildIsTouched(e, now, src, dst, n, q);
      assert src <= src + [n];
    }
  }

  lemma ChildIsSeparate(e: Entries, now: Entries, src: Path, dst: Path, n: string)
    requires Separate(e, src, dst) && LinksRooted(e) && Kept(e, now, src) && SameLinks(e, now) && DirsStay(e, now)
    ensures Separate(now, src + [n], dst + [n])
  {
    RootedStill(e, now);
    forall a: Path, b: Path |
      && src + [n] + a in now && !now[src + [n] + a].Dir? && src + [n] + b in now && !now[src + [n] + b].Dir? && a != b
      && FileDestination(now, dst + [n] + a).Ok?
      ensures !Touches(now, dst + [n] + b, FileDestination(now, dst + [n] + a).value)
    {
      DownOne(e, now, src, dst, n, a);
      DownOne(e, now, src, dst, n, b);
      assert ([n] + a)[1..] == a && ([n] + b)[1..] == b;
    }
  }

  /** An entry below a child, and where it lands, seen from the directory and from the beginning. */
  lemma DownOne(e: Entries, now: Entries, src: Path, dst: Path, n: string, rel: Path)
    requires LinksRooted(e) && LinksRooted(now) && SameLinks(e, now) && Kept(e, now, src)
    ensures src + [n] + rel == src + ([n] + rel) && dst + [n] + rel == dst + ([n] + rel)
    ensures SameAt(e, now, src + ([n] + rel))
    ensures FileDestination(now, dst + ([n] + rel)) == FileDestination(e, dst + ([n] + rel))
  {
    assert src + [n] + rel == src + ([n] + rel) && dst + [n] + rel == dst + ([n] + rel);
    assert src <= src + ([n] + rel);
    SameDestination(e, now, dst + ([n] + rel));
  }

  lemma StillConfined(e: Entries, now: Entries, now': Entries, src: Path, dst: Path, n: string)
    requires LinksRooted(e) && Steady(e, now, src, dst) && Confined(now, now', src + [n], dst + [n])
    requires src in e && e[src].Dir? && src + [n] in e && dst in now
    ensures Confined(e, now', src, dst)
  {
    forall q | !Touched(e, src, dst, q) ensures !Touched(now, src + [n], dst + [n], q) {
      if Touched(now, src + [n], dst + [n], q) { ChildIsTouched(e, now, src, dst, n, q); }
    }
    forall q | q in now' && q !in now && !Touched(e, src, dst, q)
      ensures now'[q].Dir? && (OnTheWay(e, src, dst, q) || CopyOfDir(e, src, dst, q))
    {
      NewDirectory(e, now, src, dst, n, q);
    }
  }

  /** A directory made on the way to a child, or as a copy of one below it, is one for the whole directory. */
  lemma NewDirectory(e: Entries, now: Entries, src: Path, dst: Path, n: string, q: Path)
    requires Kept(e, now, src) && src in e && e[src].Dir? && dst in now && q !in now
    requires OnTheWay(now, src + [n], dst + [n], q) || CopyOfDir(now, src + [n], dst + [n], q)
    ensures OnTheWay(e, src, dst, q) || CopyOfDir(e, src, dst, q)
  {
    if CopyOfDir(now, src + [n], dst + [n], q) {
      assert q[|dst|..] == [n] + q[|dst| + 1..] && q[|dst + [n]|..] == q[|dst| + 1..];
      assert src + q[|dst|..] == src + [n] + q[|dst| + 1..];
      assert src <= src + q[|dst|..] && dst <= q;
    } else {
      assert q <= dst && q != dst;
    }
  }

  /** What one more entry has made of the directory. */
  lemma NextIsFollowed(
    e: Entries, now: Entries, now': Entries, src: Path, dst: Path, done: seq<string>, n: string, err: Error)
    requires Followable(e, src, dst) && src in e && e[src].Dir? && src + [n] in e
    requires PartlyFollowed(e, now, src, dst, done) && n !in done
    requires Followed(now, now', src + [n], dst + [n], err)
    ensures Steady(e, now', src, dst)
    ensures err == Nil && (Plain(e, src) ==> Plain(now, src + [n])) ==>
      PartlyFollowed(e, now', src, dst, done + [n])
  {
    StillConfined(e, now, now', src, dst, n);
    StillKept(e, now, now', src, dst, n);
    if err == Nil && Plain(e, src) && Plain(now, src + [n]) && Separate(e, src, dst) {
      ChildIsSeparate(e, now, src, dst, n);
      forall i | 0 <= i < |done + [n]| ensures Arrived(e, now', src + [(done + [n])[i]], dst + [(done + [n])[i]]) {
        if i < |done| {
          assert (done + [n])[i] == done[i];
          EarlierHaveArrived(e, now, now', src, dst, done[i], n);
        } else {
          NewestHasArrived(e, now, now', src, dst, n);
        }
      }
    }
  }

  lemma StillKept(e: Entries, now: Entries, now': Entries, src: Path, dst: Path, n: string)
    requires Followable(e, src, dst) && Steady(e, now, src, dst) && Steady(now, now', src + [n], dst + [n])
    ensures Kept(now, now', src)
  {
    forall q | src <= q ensures !Touched(now, src + [n], dst + [n], q) {
      if Touched(now, src + [n], dst + [n], q) { ChildIsTouched(e, now, src, dst, n, q); }
    }
    forall q | src <= q && q in now' ensures q in now {
      ApartAbove(src, dst, q);
      assert dst <= dst + [n];
      assert q < dst + [n] ==> q <= dst;
    }
  }

  lemma NewestHasArrived(e: Entries, now: Entries, now': Entries, src: Path, dst: Path, n: string)
    requires LinksRooted(e) && Kept(e, now, src) && SameLinks(e, now) && DirsStay(e, now)
    requires Arrived(now, now', src + [n], dst + [n])
    ensures Arrived(e, now', src + [n], dst + [n])
  {
    RootedStill(e, now);
    forall rel: Path | src + [n] + rel in e ensures ArrivedAt(e, now', e[src + [n] + rel], dst + [n] + rel) {
      DownOne(e, now, src, dst, n, rel);
      assert ArrivedAt(now, now', now[src + [n] + rel], dst + [n] + rel);
    }
  }

  /** What has arrived stays where it is while another entry is copied. */
  lemma EarlierHaveArrived(
    e: Entries, now: Entries, now': Entries, src: Path, dst: Path, m: string, n: string)
    requires LinksRooted(e) && Steady(e, now, src, dst) && Separate(e, src, dst) && m != n
    requires Confined(now, now', src + [n], dst + [n]) && DirsStay(now, now')
    requires Arrived(e, now, src + [m], dst + [m])
    ensures Arrived(e, now', src + [m], dst + [m])
  {
    forall rel: Path | src + [m] + rel in e ensures ArrivedAt(e, now', e[src + [m] + rel], dst + [m] + rel) {
      assert ArrivedAt(e, now, e[src + [m] + rel], dst + [m] + rel);
      if !e[src + [m] + rel].Dir? {
        NotTouchedAgain(e, now, src, dst, m, rel, n);
      }
    }
  }

  lemma NotTouchedAgain(e: Entries, now: Entries, src: Path, dst: Path, m: string, rel: Path, n: string)
    requires LinksRooted(e) && Steady(e, now, src, dst) && Separate(e, src, dst) && m != n
    requires src + [m] + rel in e && !e[src + [m] + rel].Dir? && FileDestination(e, dst + [m] + rel).Ok?
    ensures !Touched(now, src + [n], dst + [n], FileDestination(e, dst + [m] + rel).value)
  {
    var at := FileDestination(e, dst + [m] + rel).value;
    RootedStill(e, now);
    DownOne(e, now, src, dst, m, rel);
    forall other: Path | src + [n] + other in now && !now[src + [n] + other].Dir?
      ensures !Touches(now, dst + [n] + other, at)
    {
      DownOne(e, now, src, dst, n, other);
      ApartBelow(e, src, dst, m, rel, n, other, at);
    }
  }

  lemma ApartBelow(
    e: Entries, src: Path, dst: Path, m: string, rel: Path, n: string, other: Path, at: Path)
    requires Separate(e, src, dst) && m != n && src + ([m] + rel) in e && !e[src + ([m] + rel)].Dir?
    requires FileDestination(e, dst + ([m] + rel)) == Ok(at)
    requires src + ([n] + other) in e && !e[src + ([n] + other)].Dir?
    ensures !Touches(e, dst + ([n] + other), at)
  {
    assert ([m] + rel)[0] != ([n] + other)[0];
  }

  /** When every name has had its turn, the directory has arrived. */
  lemma DirectoryIsFollowed(e: Entries, now: Entries, src: Path, dst: Path, names: seq<string>)
    requires PartlyFollowed(e, now, src, dst, names) && src in e && e[src].Dir?
    requires forall n :: n in names <==> src + [n] in e
    ensures Followed(e, now, src, dst, Nil)
  {
    if Plain(e, src) && Separate(e, src, dst) {
      forall rel: Path | src + rel in e ensures ArrivedAt(e, now, e[src + rel], dst + rel) {
        if rel == [] {
          assert src + rel == src && dst + rel == dst;
        } else {
          ChildHasArrived(e, now, src, dst, names, rel);
        }
      }
    }
  }

  lemma ChildHasArrived(e: Entries, now: Entries, src: Path, dst: Path, names: seq<string>, rel: Path)
    requires rel != [] && src + rel in e && Plain(e, src) && forall n :: n in names <==> src + [n] in e
    requires forall i :: 0 <= i < |names| ==> Arrived(e, now, src + [names[i]], dst + [names[i]])
    ensures ArrivedAt(e, now, e[src + rel], dst + rel)
  {
    var n, rest := rel[0], rel[1..];
    assert src + rel == src + [n] + rest && dst + rel == dst + [n] + rest;
    FirstIsThere(e, src, rel);
    var i :| 0 <= i < |names| && names[i] == n;
    assert Arrived(e, now, src + [names[i]], dst + [names[i]]);
  }
}
