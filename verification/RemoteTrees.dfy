/** Trees of remote entries, before and after a copy, and the names a copy uses beside its destination. */
module RemoteTrees {
  import opened Prelude
  import opened FileStore
  import opened Replacement

  // ---------- What a copy is compared with ----------

  /** The tree at `dst` is the tree at `src`: same names below, same contents, links with the same targets. */
  ghost predicate SameTree(e: Entries, src: Path, e': Entries, dst: Path) {
    forall rel: Path ::
      (src + rel in e <==> dst + rel in e') && (src + rel in e && dst + rel in e' ==> e[src + rel] == e'[dst + rel])
  }

  /** Nothing exists at or below `p`. */
  predicate Clear(e: Entries, p: Path) {
    forall q :: q in e ==> !(p <= q)
  }

  predicate Apart(a: Path, b: Path) {
    !(a <= b) && !(b <= a)
  }

  function Below(e: Entries, p: Path): set<Path> {
    set q | q in e && p <= q
  }

  /** The tree at `p` is the same in both states. */
  predicate Kept(e: Entries, e': Entries, p: Path) {
    && (forall q :: q in e && p <= q ==> q in e' && e'[q] == e[q])
    && (forall q :: q in e' && p <= q ==> q in e)
  }

  /** Only the destination tree, the given scratch name, and missing ancestors of the destination may have changed. */
  predicate Frame(e: Entries, e': Entries, dst: Path, scratch: Path) {
    && (forall q :: q in e && !(dst <= q) && q != scratch ==> q in e' && e'[q] == e[q])
    && (forall q :: q in e' && !(dst <= q) && q != scratch ==> q in e || (q <= dst && e'[q].Dir?))
  }

  function Temp(dst: Path): Path {
    WithSuffix(dst, TEMP_SUFFIX)
  }

  /** What a source tree must be like: entries lie in directories, and are only files, directories and links. */
  predicate Plain(e: Entries, src: Path) {
    && (forall p, k :: p in e && src <= p && |src| <= k < |p| ==> p[..k] in e && e[p[..k]].Dir?)
    && (forall p :: p in e && src <= p ==> !e[p].Other?)
  }

  // ---------- Paths ----------

  lemma TempIsBeside(dst: Path)
    ensures Temp(dst) != dst
    ensures dst != [] ==> !(dst <= Temp(dst)) && |Temp(dst)| == |dst| && Temp(dst)[..|dst| - 1] == dst[..|dst| - 1]
  {
    SuffixesDiffer(dst, TEMP_SUFFIX, BACKUP_SUFFIX);
  }

  lemma TempIsOutside(src: Path, dst: Path)
    requires Apart(src, dst) && src <= Temp(dst)
    ensures Temp(dst) == src
  {
    TempIsBeside(dst);
    SideIsOutside(src, dst, Temp(dst));
  }

  /** Only the whole of a path beside the destination can be the source. */
  lemma SideIsOutside(src: Path, dst: Path, side: Path)
    requires Apart(src, dst) && src <= side && |side| == |dst| && side[..|dst| - 1] == dst[..|dst| - 1]
    ensures side == src
  {
    var k := if |src| < |dst| then |src| else |dst| - 1;
    assert side[..k] == side[..|dst| - 1][..k] == dst[..|dst| - 1][..k] == dst[..k];
  }

  lemma ApartAbove(a: Path, b: Path, p: Path)
    requires Apart(a, b)
    ensures !(a <= p && b <= p)
  {
  }

  /** A copy that changes only the destination and a scratch name outside the source leaves the source alone. */
  lemma FrameKeepsSource(e: Entries, e': Entries, src: Path, dst: Path, scratch: Path)
    requires Frame(e, e', dst, scratch) && Apart(src, dst) && !(src <= scratch)
    ensures Kept(e, e', src)
  {
    forall q | q in e && src <= q ensures q in e' && e'[q] == e[q] {
      ApartAbove(src, dst, q);
    }
    forall q | q in e' && src <= q ensures q in e {
      ApartAbove(src, dst, q);
    }
  }
}
