/**
 Recursive copying on the remote side: files through a temporary name, links as links, directories entry by entry.
 Every remote operation may fail, and a context may expire between any two.
 */
module RemoteCopy {
  import opened Prelude
  import opened FileStore
  import opened Replacement
  import opened RemotePath
  import opened RemoteTrees
  import opened RemoteMerge
  import opened RemoteFollow

  // ---------- The order in which directories are listed ----------

  /** What the server listed for each source directory, in its order. */
  type Orders = map<Path, seq<string>>

  /** A file beside the file whose scratch name it has. */
  predicate Clash(e: Entries, dir: Path, suffixed: string, name: string) {
    && suffixed == name + TEMP_SUFFIX
    && dir + [suffixed] in e && e[dir + [suffixed]].File? && dir + [name] in e && e[dir + [name]].File?
  }

  /** No file is listed before the one whose scratch name it has. */
  predicate KeepsAll(e: Entries, dir: Path, names: seq<string>) {
    forall i, j :: 0 <= i < j < |names| ==> !Clash(e, dir, names[i], names[j])
  }

  ghost predicate ClashFree(e: Entries, src: Path, orders: Orders) {
    forall d :: d in orders && src <= d ==> KeepsAll(e, d, orders[d])
  }

  ghost predicate Lists(e: Entries, dir: Path, names: seq<string>) {
    Distinct(names) && forall n :: n in names <==> dir + [n] in e
  }

  /** Exactly the directories of the source tree have been listed. */
  ghost predicate Listed(e: Entries, src: Path, orders: Orders) {
    && (forall d :: d in orders && src <= d ==> d in e && e[d].Dir? && Lists(e, d, orders[d]))
    && (forall d :: d in e && src <= d && e[d].Dir? ==> d in orders)
  }

  /** A file listed before the one whose scratch name it has has no copy. */
  ghost predicate Loses(e: Entries, e': Entries, src: Path, dst: Path, orders: Orders) {
    forall rel: Path, i, j ::
      src + rel in orders && 0 <= i < j < |orders[src + rel]| &&
      Clash(e, src + rel, orders[src + rel][i], orders[src + rel][j]) ==>
        dst + rel + [orders[src + rel][i]] !in e'
  }

  /** A source tree without clashes can be listed in any order. */
  predicate Unclashing(e: Entries, src: Path) {
    forall p :: p in e && src < p && e[p].File? && Temp(p) in e ==> !e[Temp(p)].File?
  }

  lemma UnclashingIsClashFree(e: Entries, src: Path, orders: Orders)
    requires Unclashing(e, src)
    ensures ClashFree(e, src, orders)
  {
    forall d, i, j | d in orders && src <= d && 0 <= i < j < |orders[d]|
      ensures !Clash(e, d, orders[d][i], orders[d][j])
    {
      var p := d + [orders[d][j]];
      assert src < p && Temp(p) == d + [orders[d][j] + TEMP_SUFFIX];
    }
  }

  /** The destination does not exist and lies apart from the source. */
  predicate Fresh(e: Entries, src: Path, dst: Path) {
    Clear(e, dst) && Apart(src, dst)
  }

  // ---------- Remote operations ----------

  /** Nothing but directories on the way. */
  predicate WayIsFree(e: Entries, p: Path) {
    forall k :: 0 <= k <= |p| && p[..k] in e ==> e[p[..k]].Dir?
  }

  method MkdirAll(d: Disk, p: Path) returns (err: Error)
    modifies d
    ensures err == Nil ==> p in d.entries && d.entries[p].Dir?
    ensures old(d.faults) <= d.faults
    ensures WayIsFree(old(d.entries), p) && d.faults == old(d.faults) ==> err == Nil
    ensures forall q :: q in old(d.entries) ==> q in d.entries && d.entries[q] == old(d.entries)[q]
    ensures forall q :: q in d.entries && q !in old(d.entries) ==> q <= p && d.entries[q].Dir?
  {
    var k := 0;
    while k <= |p|
      invariant 0 <= k <= |p| + 1
      invariant k > |p| ==> p in d.entries && d.entries[p].Dir?
      invariant forall q :: q in old(d.entries) ==> q in d.entries && d.entries[q] == old(d.entries)[q]
      invariant forall q :: q in d.entries && q !in old(d.entries) ==> q <= p && d.entries[q].Dir?
      invariant old(d.faults) <= d.faults
    {
      var works := d.Works();
      if !works || (p[..k] in d.entries && !d.entries[p[..k]].Dir?) {
        return Failure;
      }
      if k == |p| { assert p[..k] == p; }
      if p[..k] !in d.entries {
        d.entries := d.entries[p[..k] := Dir];
      }
      k := k + 1;
    }
    return Nil;
  }

  function Children(e: Entries, p: Path): set<string> {
    set q | q in e && |q| == |p| + 1 && p <= q :: q[|p|]
  }

  /** The names in a directory, in any order the server likes. */
  method ReadDir(d: Disk, p: Path) returns (r: Result<seq<string>>)
    modifies d`faults
    ensures d.faults == old(d.faults) + if r.Ok? then 0 else 1
    ensures r.Ok? ==> Distinct(r.value) && forall n :: n in r.value <==> p + [n] in d.entries
  {
    var works := d.Works();
    if !works {
      return Failed;
    }
    var left, names: seq<string> := Children(d.entries, p), [];
    while left != {}
      invariant Distinct(names) && forall n :: n in names ==> n !in left
      invariant forall n :: n in names || n in left <==> n in Children(d.entries, p)
      decreases |left|
    {
      var n :| n in left;
      left := left - {n};
      names := names + [n];
    }
    forall n ensures n in names <==> p + [n] in d.entries {
      if n in names {
        var q :| q in d.entries && |q| == |p| + 1 && p <= q && q[|p|] == n;
        assert q == p + [n];
      }
      if p + [n] in d.entries {
        assert (p + [n])[|p|] == n;
      }
    }
    return Ok(names);
  }

  // ---------- Directories created on the way ----------

  /** Directories in the tree at `src` reach less than `bound` levels down. */
  ghost predicate Shallow(e: Entries, src: Path, bound: nat) {
    forall q :: q in e && e[q].Dir? && src <= q ==> |q| < |src| + bound
  }

  /** New directories lie on the way to the destination, beside it, or at most `bound` levels below it. */
  ghost predicate Grown(e: Entries, e': Entries, dst: Path, bound: nat) {
    forall q :: q in e' && e'[q].Dir? && !(q in e && e[q].Dir?) ==> Near(q, dst, bound)
  }

  predicate Near(q: Path, dst: Path, bound: nat) {
    |q| <= (if dst == [] then 1 else |dst|) + bound && Leads(q, dst)
  }

  predicate Leads(q: Path, dst: Path) {
    q == [] || (if |q| <= |dst| then q[..|q| - 1] <= dst else dst <= q)
  }

  lemma LeadsDown(src: Path, q: Path, dst: Path)
    requires src <= q && Leads(q, dst) && |src| <= |dst|
    ensures src == q || src <= dst
  {
    if |src| < |q| <= |dst| {
      assert src == q[..|q| - 1][..|src|] == dst[..|src|];
    }
  }

  /** Copying an entry of a directory never makes the directory deeper, unless it is copied into itself. */
  lemma GrownStaysShallow(e: Entries, e': Entries, src: Path, dst: Path, name: string, bound: nat)
    requires !(src <= dst) && bound > 0 && Shallow(e, src, bound)
    requires Grown(e, e', dst + [name], bound - 1)
    ensures Shallow(e', src, bound)
  {
    forall q | q in e' && e'[q].Dir? && src <= q ensures |q| < |src| + bound {
      if !(q in e && e[q].Dir?) && |src| <= |dst| {
        var sub := dst + [name];
        assert sub[..|src|] == dst[..|src|] && Near(q, sub, bound - 1);
        LeadsDown(src, q, sub);
      }
    }
  }

  lemma GrownCompose(e: Entries, mid: Entries, e': Entries, dst: Path, name: string, bound: nat)
    requires bound > 0 && Grown(e, mid, dst, bound) && Grown(mid, e', dst + [name], bound - 1)
    ensures Grown(e, e', dst, bound)
  {
    forall q | q in e' && e'[q].Dir? && !(q in e && e[q].Dir?) ensures Near(q, dst, bound) {
      if !(q in mid && mid[q].Dir?) {
        var sub := dst + [name];
        assert Near(q, sub, bound - 1);
        if q != [] && |q| <= |dst| {
          assert q[..|q| - 1] == sub[..|q| - 1] == dst[..|q| - 1];
        } else if |q| == |sub| {
          assert q[..|q| - 1] == sub[..|dst|] == dst;
        } else if q != [] {
          assert dst <= sub <= q;
        }
      }
    }
  }

  lemma ScratchIsGrown(e: Entries, e': Entries, dst: Path, temp: Path)
    requires e' - {temp} == e - {temp} && (e' == e || (temp in e' && e'[temp].File?))
    ensures Grown(e, e', dst, 0)
  {
    forall q | q in e' && e'[q].Dir? ensures q in e && e[q].Dir? {
      assert q != temp ==> q in e' - {temp} && (e' - {temp})[q] == (e - {temp})[q];
    }
  }

  /** Replacing an entry may set a directory aside under the backup name, and creates no other. */
  lemma StageIsGrown(e: Entries, e': Entries, dst: Path, temp: Path, dest: Path)
    requires temp == Temp(dest) && temp in e && !e[temp].Dir?
    requires dest == dst || (dest in e ==> !e[dest].Dir?)
    requires Stage(e, e', temp, dest, WithSuffix(temp, BACKUP_SUFFIX))
    ensures Grown(e, e', dst, 0)
  {
    var backup := WithSuffix(temp, BACKUP_SUFFIX);
    SuffixesDiffer(dest, TEMP_SUFFIX, BACKUP_SUFFIX);
    if dest == dst {
      assert Near(backup, dst, 0);
    }
  }

  // ---------- Files and links ----------

  /** A file, or nothing, has been replaced by one with the given content; the scratch name is free. */
  predicate FileReplaced(e: Entries, e': Entries, dst: Path, data: seq<byte>) {
    match FileDestination(e, dst)
    case Failed => false
    case Ok(dest) => (dest in e ==> e[dest].File?) && e' == (e - {Temp(dest)})[dest := File(data)]
  }

  lemma ReplacedIsMerged(e: Entries, e': Entries, src: Path, dst: Path, node: Node, err: Error)
    requires OnlyReplaced(e, e', dst) && (Temp(dst) == src ==> e' == e && err != Nil)
    requires err == Nil ==> e' == (e - {Temp(dst)})[dst := node]
    ensures LeafMerged(e, e', src, dst, node, err)
  {
    forall q | q !in {dst, Temp(dst), Backup(dst)} ensures SameAt(e, e', q) {
      OthersStay(e, e', dst, q);
    }
  }

  /** There is an entry that copying a file to `dst` may replace: a file, or nothing, and not the source again. */
  predicate Landable(e: Entries, src: Path, dst: Path) {
    && FileDestination(e, dst).Ok?
    && var at := FileDestination(e, dst).value;
      (IsLink(e, dst) ==> at != src) && (at in e ==> e[at].File?)
  }

  /** And its scratch name can be used. */
  predicate FileReady(e: Entries, src: Path, dst: Path) {
    && Landable(e, src, dst)
    && var temp := Temp(FileDestination(e, dst).value);
      temp != src && (temp in e ==> e[temp].File?)
  }

  /**
   resolveRemoteCopyFileDestination: a destination link is followed so that its target is what gets replaced. It fails
   exactly if there is nothing to replace or a lookup failed.
   */
  method ResolveFileDestination(d: Disk, src: Path, dst: Path) returns (r: Result<Path>)
    modifies d`attempts, d`faults
    ensures r.Ok? ==> r == FileDestination(d.entries, dst) && Landable(d.entries, src, dst)
    ensures Landable(d.entries, src, dst) && d.faults == old(d.faults) ==> r.Ok?
    ensures old(d.faults) <= d.faults
  {
    var info := d.Lstat(dst);
    if info.Missing? {
      return Ok(dst);
    }
    if info.Unknown? {
      return Failed;
    }
    var target, node := dst, info.node;
    if node.Link? {
      var resolved := CanonicalRemotePath(d, dst);
      if resolved.Failed? || resolved.value == src {
        return Failed;
      }
      target := resolved.value;
      var found := d.Lstat(target);
      if found.Missing? {
        return Ok(target);
      }
      if found.Unknown? {
        return Failed;
      }
      node := found.node;
    }
    if !node.File? {
      return Failed;
    }
    return Ok(target);
  }

  /** What copying a file or a link may have done to the store. */
  predicate LeafCopied(e: Entries, e': Entries, dst: Path, node: Node, err: Error) {
    && (err == Nil ==> e' == (e - {Temp(dst)})[dst := node])
    && e' - {Temp(dst), dst} == e - {Temp(dst), dst}
  }

  lemma ScratchIsReplaced(e: Entries, e': Entries, dest: Path)
    requires e' - {Temp(dest)} == e - {Temp(dest)}
    ensures e' - {Temp(dest), dest} == e - {Temp(dest), dest} && OnlyReplaced(e, e', dest)
  {
    var t, more := {Temp(dest)}, {dest, Backup(dest)};
    assert e' - (t + {dest}) == e' - t - {dest} && e - (t + {dest}) == e - t - {dest};
    assert e' - (t + more) == e' - t - more && e - (t + more) == e - t - more;
    assert t + {dest} == {Temp(dest), dest} && t + more == {dest, Temp(dest), Backup(dest)};
    BackupIsBeside(dest);
    assert Backup(dest) in e ==> Backup(dest) in e - t && (e - t)[Backup(dest)] == e[Backup(dest)];
    assert Backup(dest) in e ==> Backup(dest) in e' - t;
  }

  lemma StageIsReplaced(e: Entries, written: Entries, e': Entries, dest: Path)
    requires OnlyReplaced(e, written, dest)
    requires Stage(written, e', Temp(dest), dest, Backup(dest))
    ensures OnlyReplaced(e, e', dest)
  {
    BackupIsBeside(dest);
  }

  /** Writing the scratch file and promoting it changes files only. */
  lemma ScratchIsFile(e: Entries, e': Entries, temp: Path)
    requires e' - {temp} == e - {temp} && (temp in e ==> e[temp].File?) && (e' == e || (temp in e' && e'[temp].File?))
    ensures OnlyFiles(e, e')
  {
    forall q | q != temp ensures q in e <==> q in e' ensures q in e ==> e'[q] == e[q] {
      assert q in e <==> q in e - {temp};
      assert q in e' <==> q in e' - {temp};
      assert q in e && q in e' ==> (e' - {temp})[q] == (e - {temp})[q];
    }
  }

  lemma StageIsFiles(e: Entries, e': Entries, temp: Path, dest: Path, backup: Path)
    requires temp in e && e[temp].File? && (dest in e ==> e[dest].File?)
    requires Stage(e, e', temp, dest, backup)
    ensures OnlyFiles(e, e')
  {
  }

  /** remoteCopyFile for a source with content `data`. */
  method CopyFile(d: Disk, src: Path, dst: Path, data: seq<byte>) returns (err: Error)
    modifies d
    ensures !FileReady(old(d.entries), src, dst) ==> err != Nil && d.entries == old(d.entries)
    ensures FileReady(old(d.entries), src, dst) && d.faults == old(d.faults) ==> err == Nil
    ensures old(d.faults) <= d.faults
    ensures err == Nil ==> FileReplaced(old(d.entries), d.entries, dst, data)
    ensures FileLanded(old(d.entries), d.entries, dst, File(data), err)
    ensures dst !in old(d.entries) ==> LeafCopied(old(d.entries), d.entries, dst, File(data), err)
    ensures Grown(old(d.entries), d.entries, dst, 0)
  {
    ghost var before := d.entries;
    var resolved := ResolveFileDestination(d, src, dst);
    if resolved.Failed? {
      return Failure;
    }
    var dest := resolved.value;
    var temp := Temp(dest);
    TempIsBeside(dest);
    var sourceOpens := d.Works();
    if !sourceOpens || temp == src {
      return Failure;
    }
    err := WriteTemp(d, temp, data);
    ScratchIsReplaced(before, d.entries, dest);
    ScratchIsGrown(before, d.entries, dst, temp);
    if temp in before ==> before[temp].File? {
      ScratchIsFile(before, d.entries, temp);
    }
    if err != Nil {
      return;
    }
    err := PromoteFile(d, dst, dest, data, before);
    var sourceCloses := d.Works();
    if !sourceCloses {
      err := Failure;
    }
  }

  /** The scratch file is renamed over the entry it is to replace. */
  method PromoteFile(d: Disk, dst: Path, dest: Path, data: seq<byte>, ghost before: Entries) returns (err: Error)
    requires dest in before ==> before[dest].File?
    requires d.entries == before[Temp(dest) := File(data)]
    requires OnlyReplaced(before, d.entries, dest) && OnlyFiles(before, d.entries)
    modifies d
    ensures old(d.faults) <= d.faults && (d.faults == old(d.faults) ==> err == Nil)
    ensures err == Nil ==> d.entries == (before - {Temp(dest)})[dest := File(data)]
    ensures OnlyReplaced(before, d.entries, dest) && OnlyFiles(before, d.entries) && Grown(before, d.entries, dst, 0)
    ensures dest !in before ==> LeafCopied(before, d.entries, dest, File(data), err)
  {
    TempIsBeside(dest);
    err := ReplaceRemoteFile(d, Temp(dest), dest);
    WrittenAndRenamed(before, Temp(dest), dest, File(data));
    PromotionIsFiles(before, before[Temp(dest) := File(data)], d.entries, dst, dest);
    PromotionOfNew(before, d.entries, dest, data);
  }

  lemma PromotionOfNew(before: Entries, now: Entries, dest: Path, data: seq<byte>)
    requires Temp(dest) != dest && Stage(before[Temp(dest) := File(data)], now, Temp(dest), dest, Backup(dest))
    ensures dest !in before ==> now - {Temp(dest), dest} == before - {Temp(dest), dest}
  {
  }

  lemma PromotionIsFiles(before: Entries, written: Entries, now: Entries, dst: Path, dest: Path)
    requires Temp(dest) in written && written[Temp(dest)].File? && (dest in written ==> written[dest].File?)
    requires OnlyReplaced(before, written, dest) && OnlyFiles(before, written)
    requires Stage(written, now, Temp(dest), dest, Backup(dest))
    ensures OnlyReplaced(before, now, dest) && OnlyFiles(before, now) && Grown(before, now, dst, 0)
  {
    StageIsReplaced(before, written, now, dest);
    StageIsFiles(written, now, Temp(dest), dest, Backup(dest));
  }

  /** The temporary file is created or emptied, filled, and closed. */
  method WriteTemp(d: Disk, temp: Path, data: seq<byte>) returns (err: Error)
    modifies d
    ensures err == Nil ==> d.entries == old(d.entries)[temp := File(data)]
    ensures d.entries - {temp} == old(d.entries) - {temp}
    ensures d.entries == old(d.entries) || (temp in d.entries && d.entries[temp].File?)
    ensures temp in old(d.entries) && !old(d.entries)[temp].File? ==> err != Nil && d.entries == old(d.entries)
    ensures old(d.faults) <= d.faults
    ensures (temp in old(d.entries) ==> old(d.entries)[temp].File?) && d.faults == old(d.faults) ==> err == Nil
  {
    err := OpenTemp(d, temp);
    if err == Nil {
      var writes := d.Works();
      var k: nat :| k <= |data| && (writes ==> k == |data|);
      d.Store(temp, data[..k]);
      assert writes ==> data[..k] == data;
      var finishes := d.Works();
      err := if writes && finishes then Nil else Failure;
    }
  }

  method OpenTemp(d: Disk, temp: Path) returns (err: Error)
    modifies d
    ensures err == Nil ==> d.entries == old(d.entries)[temp := File([])]
    ensures err != Nil ==> d.entries == old(d.entries)
    ensures temp in old(d.entries) && !old(d.entries)[temp].File? ==> err != Nil
    ensures old(d.faults) <= d.faults
    ensures (temp in old(d.entries) ==> old(d.entries)[temp].File?) && d.faults == old(d.faults) ==> err == Nil
  {
    var info := d.Lstat(temp);
    if info.Unknown? || (info.Found? && !info.node.File?) {
      return Failure;
    }
    if info.Missing? {
      err := d.Create(temp);
      return;
    }
    var emptied := d.Works();
    if !emptied {
      return Failure;
    }
    d.Store(temp, []);
    return Nil;
  }

  /** The scratch name of a link must be free. */
  predicate LinkReady(e: Entries, src: Path, dst: Path) {
    Temp(dst) != src && Temp(dst) !in e
  }

  /** remoteCopyLink. */
  method CopyLink(d: Disk, src: Path, dst: Path, target: Target) returns (err: Error)
    modifies d
    ensures !LinkReady(old(d.entries), src, dst) ==> err != Nil && d.entries == old(d.entries)
    ensures LinkReady(old(d.entries), src, dst) && d.faults == old(d.faults) ==> err == Nil
    ensures old(d.faults) <= d.faults
    ensures err == Nil ==> d.entries == old(d.entries)[dst := Link(target)]
    ensures OnlyReplaced(old(d.entries), d.entries, dst)
    ensures dst !in old(d.entries) ==> LeafCopied(old(d.entries), d.entries, dst, Link(target), err)
    ensures Grown(old(d.entries), d.entries, dst, 0)
  {
    var readable := d.Works();
    var temp := Temp(dst);
    TempIsBeside(dst);
    if !readable || temp == src {
      return Failure;
    }
    var info := d.Lstat(temp);
    if !info.Missing? {
      return Failure;
    }
    var links := d.Works();
    if !links {
      return Failure;
    }
    err := PromoteLink(d, dst, target);
  }

  /** The link is created at the scratch name and promoted; what was not promoted is removed again. */
  method PromoteLink(d: Disk, dst: Path, target: Target) returns (err: Error)
    requires Temp(dst) !in d.entries
    modifies d
    ensures old(d.faults) <= d.faults && (d.faults == old(d.faults) ==> err == Nil)
    ensures err == Nil ==> d.entries == old(d.entries)[dst := Link(target)]
    ensures OnlyReplaced(old(d.entries), d.entries, dst)
    ensures dst !in old(d.entries) ==> LeafCopied(old(d.entries), d.entries, dst, Link(target), err)
    ensures Grown(old(d.entries), d.entries, dst, 0)
  {
    ghost var before := d.entries;
    var temp := Temp(dst);
    TempIsBeside(dst);
    d.entries := d.entries[temp := Link(target)];
    ghost var linked := d.entries;
    LinkedIsReplaced(before, dst, target);
    var goesOn := d.Works();
    err := Failure;
    if goesOn {
      err := ReplaceRemoteLink(d, temp, dst);
      StageIsGrown(linked, d.entries, dst, temp, dst);
      StageIsReplaced(before, linked, d.entries, dst);
    }
    if err != Nil {
      RemoveUnpromoted(d, dst, before);
    }
  }

  method RemoveUnpromoted(d: Disk, dst: Path, ghost before: Entries)
    requires OnlyReplaced(before, d.entries, dst) && Grown(before, d.entries, dst, 0)
    requires dst !in before ==> d.entries - {Temp(dst), dst} == before - {Temp(dst), dst}
    modifies d
    ensures old(d.faults) <= d.faults
    ensures OnlyReplaced(before, d.entries, dst) && Grown(before, d.entries, dst, 0)
    ensures dst !in before ==> d.entries - {Temp(dst), dst} == before - {Temp(dst), dst}
  {
    ghost var left := d.entries;
    var removeErr := d.Remove(Temp(dst));
    StillReplaced(before, left, dst);
    assert left - {Temp(dst)} - {Temp(dst), dst} == left - {Temp(dst), dst};
  }

  lemma LinkedIsReplaced(before: Entries, dst: Path, target: Target)
    requires Temp(dst) !in before && Temp(dst) != dst
    ensures var linked := before[Temp(dst) := Link(target)];
      && linked - {Temp(dst), dst} == before - {Temp(dst), dst} && OnlyReplaced(before, linked, dst)
      && Renamed(linked, Temp(dst), dst) == before[dst := Link(target)]
  {
    ScratchIsReplaced(before, before[Temp(dst) := Link(target)], dst);
  }

  lemma StillReplaced(before: Entries, left: Entries, dst: Path)
    requires OnlyReplaced(before, left, dst)
    ensures OnlyReplaced(before, left - {Temp(dst)}, dst)
  {
    var names := {dst, Temp(dst), Backup(dst)};
    assert left - {Temp(dst)} - names == left - names;
    BackupIsBeside(dst);
  }

  // ---------- Trees ----------

  /**
   What copying an entry to a fresh destination promises, whether it succeeds or not. A successful copy of a plain tree
   is the same tree exactly if no file was listed before the one whose scratch name it has.
   */
  ghost predicate EntryCopied(e: Entries, e': Entries, src: Path, dst: Path, orders: Orders, err: Error) {
    && Frame(e, e', dst, Temp(dst))
    && Kept(e, e', src)
    && (err == Nil ==> src in e && ScratchUsed(e, e', e[src], dst))
    && (err == Nil && Plain(e, src) ==> TreeCopied(e, e', src, dst, orders))
  }

  ghost predicate Under(orders: Orders, src: Path) {
    forall d :: d in orders ==> src <= d
  }

  ghost predicate TreeCopied(e: Entries, e': Entries, src: Path, dst: Path, orders: Orders) {
    && Under(orders, src)
    && Listed(e, src, orders)
    && (SameTree(e, src, e', dst) <==> ClashFree(e, src, orders))
    && Loses(e, e', src, dst, orders)
  }

  /** What a successful copy has made of the scratch name beside the destination. */
  predicate ScratchUsed(e: Entries, e': Entries, node: Node, dst: Path) {
    match node
    case Dir => (Temp(dst) in e <==> Temp(dst) in e') && (Temp(dst) in e ==> e'[Temp(dst)] == e[Temp(dst)])
    case Link(_) => Temp(dst) !in e && Temp(dst) !in e'
    case _ => Temp(dst) !in e' && (Temp(dst) in e ==> e[Temp(dst)].File?)
  }

  lemma LeafIsFramed(e: Entries, e': Entries, src: Path, dst: Path, node: Node, err: Error)
    requires Fresh(e, src, dst) && LeafCopied(e, e', dst, node, err)
    requires Temp(dst) == src ==> e' == e
    ensures Frame(e, e', dst, Temp(dst)) && Kept(e, e', src)
  {
    forall q | q in e && !(dst <= q) && q != Temp(dst) ensures q in e' && e'[q] == e[q] {
      assert q in e - {Temp(dst), dst};
    }
    forall q | q in e' && !(dst <= q) && q != Temp(dst) ensures q in e {
      assert q in e' - {Temp(dst), dst};
    }
    if Temp(dst) != src {
      if src <= Temp(dst) { TempIsOutside(src, dst); }
      FrameKeepsSource(e, e', src, dst, Temp(dst));
    }
  }

  /** A leaf and its copy have the same tree: nothing below either. */
  lemma LeafIsSame(e: Entries, e': Entries, src: Path, dst: Path)
    requires Clear(e, dst) && src in e && !e[src].Dir? && Plain(e, src)
    requires e' == (e - {Temp(dst)})[dst := e[src]]
    ensures TreeCopied(e, e', src, dst, map[])
  {
    forall rel: Path
      ensures src + rel in e <==> dst + rel in e'
      ensures src + rel in e && dst + rel in e' ==> e[src + rel] == e'[dst + rel]
    {
      if rel == [] {
        assert src + rel == src && dst + rel == dst;
      } else {
        assert dst + rel != dst && dst <= dst + rel && (src + rel)[..|src|] == src;
      }
    }
    forall d | d in e && src <= d ensures !e[d].Dir? {
      PlainBelow(e, src, d);
    }
  }

  lemma PlainBelow(e: Entries, src: Path, p: Path)
    requires Plain(e, src) && p in e && src <= p
    ensures p == src || (src in e && e[src].Dir?)
  {
    if |src| < |p| { assert p[..|src|] == src; }
  }

  lemma LeafIsCopied(e: Entries, e': Entries, src: Path, dst: Path, node: Node, err: Error)
    requires Fresh(e, src, dst) && src in e && !e[src].Dir? && (node == e[src] || e[src].Other?)
    requires LeafCopied(e, e', dst, node, err)
    requires Temp(dst) == src ==> e' == e && err != Nil
    requires err == Nil && Temp(dst) in e ==> e[Temp(dst)].File? && !e[src].Link?
    ensures EntryCopied(e, e', src, dst, map[], err)
  {
    TempIsBeside(dst);
    LeafIsFramed(e, e', src, dst, node, err);
    if err == Nil && Plain(e, src) {
      LeafIsSame(e, e', src, dst);
    }
  }

  // ---------- Directories ----------

  /** The copy of a directory at `src`, once the entries named in `done` have been copied. */
  ghost predicate PartlyCopied(e: Entries, now: Entries, src: Path, dst: Path, done: seq<string>, orders: Orders) {
    && Frame(e, now, dst, dst)
    && Kept(e, now, src)
    && dst in now && now[dst].Dir?
    && (forall q :: q in now && dst < q ==> q[|dst|] in done)
    && (Plain(e, src) ==>
          && (forall d :: d in orders ==> src < d && d[|src|] in done)
          && forall i :: 0 <= i < |done| ==> ChildCopied(e, now, src, dst, done, i, orders))
  }

  /** No entry copied later has used the name of this one as its scratch name. */
  predicate Fine(e: Entries, src: Path, done: seq<string>, i: nat)
    requires i < |done|
  {
    forall j :: i < j < |done| ==> !Clash(e, src, done[i], done[j])
  }

  ghost predicate ChildCopied(
    e: Entries, now: Entries, src: Path, dst: Path, done: seq<string>, i: nat, orders: Orders)
    requires i < |done|
  {
    var s, t := src + [done[i]], dst + [done[i]];
    && s in e && Listed(e, s, orders)
    && (SameTree(e, s, now, t) <==> Fine(e, src, done, i) && ClashFree(e, s, orders))
    && (!Fine(e, src, done, i) ==> t !in now)
    && Loses(e, now, s, t, orders)
  }

  lemma DirectoryIsPrepared(e: Entries, now: Entries, src: Path, dst: Path)
    requires Fresh(e, src, dst)
    requires forall q :: q in e ==> q in now && now[q] == e[q]
    requires forall q :: q in now && q !in e ==> q <= dst && now[q].Dir?
    ensures Frame(e, now, dst, dst) && Kept(e, now, src)
    ensures dst in now && now[dst].Dir? ==> PartlyCopied(e, now, src, dst, [], map[])
  {
    forall q | q in now && src <= q ensures q in e {
      assert q <= dst ==> src <= dst;
    }
  }

  lemma SubtreeIsPlain(e: Entries, now: Entries, src: Path, name: string)
    requires Plain(e, src) && Kept(e, now, src)
    ensures Plain(now, src + [name])
  {
    var sub := src + [name];
    assert src <= sub;
    forall p, k | p in now && sub <= p && |sub| <= k < |p| ensures p[..k] in now && now[p[..k]].Dir? {
      assert p in e && p[..k] in e;
      assert src <= p[..k];
    }
  }

  /** What is said of a subtree of the source holds in every state that keeps the source. */
  lemma KeptListing(e: Entries, now: Entries, src: Path, sub: Path, orders: Orders)
    requires Kept(e, now, src) && src <= sub
    ensures Listed(now, sub, orders) ==> Listed(e, sub, orders)
    ensures ClashFree(now, sub, orders) <==> ClashFree(e, sub, orders)
  {
    forall d, n: string | sub <= d ensures d + [n] in now <==> d + [n] in e
    {
      assert src <= d + [n];
    }
    forall d, a: string, b: string | sub <= d ensures Clash(now, d, a, b) <==> Clash(e, d, a, b) {
      assert src <= d + [a] && src <= d + [b];
    }
    if Listed(now, sub, orders) {
      forall d | d in orders && sub <= d ensures d in e && e[d].Dir? && Lists(e, d, orders[d]) {
        assert src <= d;
      }
    }
  }

  lemma KeptTree(e: Entries, now: Entries, now': Entries, src: Path, sub: Path, dst: Path, orders: Orders)
    requires Kept(e, now, src) && src <= sub
    ensures SameTree(now, sub, now', dst) <==> SameTree(e, sub, now', dst)
    ensures Loses(now, now', sub, dst, orders) ==> Loses(e, now', sub, dst, orders)
  {
    forall rel: Path ensures sub + rel in now <==> sub + rel in e
      ensures sub + rel in e ==> now[sub + rel] == e[sub + rel]
    {
      assert src <= sub + rel;
    }
    forall rel: Path, a: string, b: string ensures Clash(now, sub + rel, a, b) <==> Clash(e, sub + rel, a, b) {
      assert src <= sub + rel + [a] && src <= sub + rel + [b];
    }
  }

  predicate AgreeUnder(o: Orders, o': Orders, p: Path) {
    && (forall d :: d in o && p <= d ==> d in o' && o'[d] == o[d])
    && (forall d :: d in o' && p <= d ==> d in o)
  }

  lemma AgreeingOrders(e: Entries, e': Entries, src: Path, dst: Path, o: Orders, o': Orders)
    requires AgreeUnder(o, o', src)
    ensures Listed(e, src, o) <==> Listed(e, src, o')
    ensures ClashFree(e, src, o) <==> ClashFree(e, src, o')
    ensures Loses(e, e', src, dst, o) ==> Loses(e, e', src, dst, o')
  {
    forall rel: Path ensures src <= src + rel && (src + rel in o <==> src + rel in o') {}
    forall d | src <= d ensures d in o <==> d in o' {}
    if Loses(e, e', src, dst, o) {
      forall rel: Path, i, j |
        src + rel in o' && 0 <= i < j < |o'[src + rel]| && Clash(e, src + rel, o'[src + rel][i], o'[src + rel][j])
        ensures dst + rel + [o'[src + rel][i]] !in e'
      {
        assert src <= src + rel && o[src + rel] == o'[src + rel];
        assert Clash(e, src + rel, o[src + rel][i], o[src + rel][j]);
      }
    }
  }

  /** Listings of different entries do not interfere. */
  lemma OrdersOfSiblings(src: Path, done: seq<string>, name: string, orders: Orders, more: Orders)
    requires name !in done && (forall d :: d in orders ==> src < d && d[|src|] in done)
    requires forall d :: d in more ==> src + [name] <= d
    ensures forall n :: n in done ==> AgreeUnder(orders, orders + more, src + [n])
    ensures AgreeUnder(more, orders + more, src + [name])
    ensures forall d :: d in orders + more ==> src < d && d[|src|] in done + [name]
  {
    forall d, n: string | src + [n] <= d ensures src < d && d[|src|] == n {
      assert d[|src|] == (src + [n])[|src|];
    }
    forall d | d in more ensures src < d && d[|src|] == name {
      assert src + [name] <= d;
    }
    forall d | d in more ensures d !in orders {}
  }

  /** After copying one more entry, what else is in the destination directory is as before. */
  lemma NextIsCopied(
    e: Entries, now: Entries, now': Entries, src: Path, dst: Path, done: seq<string>, name: string, orders: Orders,
    more: Orders, err: Error)
    requires Fresh(e, src, dst) && PartlyCopied(e, now, src, dst, done, orders) && name !in done
    requires EntryCopied(now, now', src + [name], dst + [name], more, err)
    ensures Frame(e, now', dst, dst) && Kept(e, now', src)
    ensures err == Nil ==> PartlyCopied(e, now', src, dst, done + [name], orders + more)
  {
    var sub, subSrc, scratch := dst + [name], src + [name], Temp(dst + [name]);
    TempIsBeside(sub);
    assert dst <= sub && sub[..|sub| - 1] == dst && src <= subSrc;
    assert dst <= scratch && scratch[|dst|] == name + TEMP_SUFFIX;
    NextIsFramed(e, now, now', src, dst, name);
    if err == Nil {
      NothingElseCopied(now, now', dst, done, name);
      if Plain(e, src) {
        SubtreeIsPlain(e, now, src, name);
        OrdersOfSiblings(src, done, name, orders, more);
        forall i | 0 <= i < |done + [name]| ensures ChildCopied(e, now', src, dst, done + [name], i, orders + more) {
          NextChildIsCopied(e, now, now', src, dst, done, name, orders, more, i);
        }
      }
    }
  }

  lemma NextChildIsCopied(
    e: Entries, now: Entries, now': Entries, src: Path, dst: Path, done: seq<string>, name: string, orders: Orders,
    more: Orders, i: nat)
    requires PartlyCopied(e, now, src, dst, done, orders) && Plain(e, src) && name !in done && i <= |done|
    requires EntryCopied(now, now', src + [name], dst + [name], more, Nil) && Plain(now, src + [name])
    requires forall n :: n in done ==> AgreeUnder(orders, orders + more, src + [n])
    requires AgreeUnder(more, orders + more, src + [name])
    ensures ChildCopied(e, now', src, dst, done + [name], i, orders + more)
  {
    if i < |done| {
      assert ChildCopied(e, now, src, dst, done, i, orders);
      assert !now[src + [name]].Other?;
      SiblingStays(e, now, now', src, dst, done, i, name, orders);
      assert (done + [name])[i] == done[i] && done[i] in done;
      AgreeingOrders(e, now', src + [done[i]], dst + [done[i]], orders, orders + more);
    } else {
      NewestIsCopied(e, now, now', src, dst, done, name, more);
      AgreeingOrders(e, now', src + [name], dst + [name], more, orders + more);
    }
  }

  lemma NothingElseCopied(now: Entries, now': Entries, dst: Path, done: seq<string>, name: string)
    requires forall q :: q in now && dst < q ==> q[|dst|] in done
    requires Frame(now, now', dst + [name], Temp(dst + [name]))
    requires Temp(dst + [name]) in now' ==> Temp(dst + [name]) in now
    ensures forall q :: q in now' && dst < q ==> q[|dst|] in done + [name]
  {
    var sub := dst + [name];
    forall q | q in now' && dst < q ensures q[|dst|] in done + [name] {
      assert sub <= q ==> q[|dst|] == sub[|dst|] == name;
      assert q <= sub ==> q == sub;
    }
  }

  lemma NewestIsCopied(
    e: Entries, now: Entries, now': Entries, src: Path, dst: Path, done: seq<string>, name: string, more: Orders)
    requires Kept(e, now, src) && src + [name] in now && TreeCopied(now, now', src + [name], dst + [name], more)
    ensures ChildCopied(e, now', src, dst, done + [name], |done|, more)
  {
    var sub := src + [name];
    assert src <= sub;
    KeptListing(e, now, src, sub, more);
    KeptTree(e, now, now', src, sub, dst + [name], more);
    var all, i := done + [name], |done|;
    assert all[i] == name && Fine(e, src, all, i);
    assert sub in now <==> sub in e;
  }

  /** Copying an entry leaves the copies of its siblings alone, except one that lies at its scratch name. */
  lemma SiblingStays(
    e: Entries, now: Entries, now': Entries, src: Path, dst: Path, done: seq<string>, i: nat, name: string,
    orders: Orders)
    requires i < |done| && name !in done && Kept(e, now, src) && src + [name] in now && !now[src + [name]].Other?
    requires ChildCopied(e, now, src, dst, done, i, orders)
    requires Frame(now, now', dst + [name], Temp(dst + [name]))
    requires ScratchUsed(now, now', now[src + [name]], dst + [name])
    ensures ChildCopied(e, now', src, dst, done + [name], i, orders)
  {
    var n, sub := done[i], dst + [name];
    var s, t := src + [n], dst + [n];
    assert (done + [name])[i] == n && src <= src + [name] && src <= s;
    BesideStays(now, now', dst, n, name);
    FineNext(e, src, done, i, name);
    SiblingStaysLost(now, now', e, s, t, orders);
    if t in now && t !in now' {
      UsedUp(e, now, now', src, dst, n, name);
      if SameTree(e, s, now', t) { SameTreeAt(e, s, now', t); }
      if SameTree(e, s, now, t) { SameTreeAt(e, s, now, t); }
    } else {
      SameBeside(e, now, now', s, t);
      if Clash(e, src, n, name) {
        assert t == Temp(sub);
        if SameTree(e, s, now, t) { SameTreeAt(e, s, now, t); }
      }
    }
  }

  lemma SiblingStaysLost(now: Entries, now': Entries, e: Entries, s: Path, t: Path, orders: Orders)
    requires Loses(e, now, s, t, orders) && forall rel: Path :: t + rel in now' ==> t + rel in now
    ensures Loses(e, now', s, t, orders)
  {
    forall rel: Path, i, j |
      s + rel in orders && 0 <= i < j < |orders[s + rel]| && Clash(e, s + rel, orders[s + rel][i], orders[s + rel][j])
      ensures t + rel + [orders[s + rel][i]] !in now'
    {
      assert t + rel + [orders[s + rel][i]] == t + (rel + [orders[s + rel][i]]);
    }
  }

  lemma SameBeside(e: Entries, now: Entries, now': Entries, s: Path, t: Path)
    requires t in now ==> t in now'
    requires forall rel: Path :: t + rel in now' ==> t + rel in now
    requires forall rel: Path :: t + rel in now && (rel != [] || t in now') ==>
      t + rel in now' && now'[t + rel] == now[t + rel]
    ensures SameTree(e, s, now, t) <==> SameTree(e, s, now', t)
  {
    assert t + [] == t;
    forall rel: Path ensures t + rel in now <==> t + rel in now'
      ensures t + rel in now ==> now'[t + rel] == now[t + rel]
    {
      assert rel == [] ==> t + rel == t;
    }
  }

  lemma FineNext(e: Entries, src: Path, done: seq<string>, i: nat, name: string)
    requires i < |done|
    ensures Fine(e, src, done + [name], i) <==> Fine(e, src, done, i) && !Clash(e, src, done[i], name)
  {
    var more := done + [name];
    assert forall j :: 0 <= j < |done| ==> more[j] == done[j];
    assert more[|done|] == name;
  }

  /** Beside the entry copied, only something at its scratch name can have gone. */
  lemma BesideStays(now: Entries, now': Entries, dst: Path, n: string, name: string)
    requires n != name && Frame(now, now', dst + [name], Temp(dst + [name]))
    requires var t := Temp(dst + [name]); t in now' ==> t in now && now'[t] == now[t]
    ensures forall rel: Path :: dst + [n] + rel in now' ==> dst + [n] + rel in now
    ensures forall rel: Path :: dst + [n] + rel in now && (rel != [] || dst + [n] in now') ==>
      dst + [n] + rel in now' && now'[dst + [n] + rel] == now[dst + [n] + rel]
  {
    var sub := dst + [name];
    TempIsBeside(sub);
    assert dst + [n] + [] == dst + [n];
    forall rel: Path
      ensures var q := dst + [n] + rel; !(sub <= q) && !(q <= sub) && (rel != [] ==> q != Temp(sub))
    {
      var q := dst + [n] + rel;
      assert q[|dst|] == n && sub[|dst|] == name;
    }
  }

  /** A copy that has gone lay at the scratch name of a file, and was a file itself. */
  lemma UsedUp(e: Entries, now: Entries, now': Entries, src: Path, dst: Path, n: string, name: string)
    requires n != name && Kept(e, now, src) && src + [name] in now && !now[src + [name]].Other?
    requires Frame(now, now', dst + [name], Temp(dst + [name]))
    requires ScratchUsed(now, now', now[src + [name]], dst + [name])
    requires dst + [n] in now && dst + [n] !in now' && src + [n] in e
    ensures now[dst + [n]].File? && (e[src + [n]].File? ==> Clash(e, src, n, name))
  {
    var t, sub := dst + [n], dst + [name];
    assert t[|dst|] == n && sub[|dst|] == name && !(sub <= t);
    assert t == Temp(sub) && Temp(sub)[|dst|] == name + TEMP_SUFFIX;
    assert src <= src + [name] && src <= src + [n];
  }

  lemma SameTreeAt(e: Entries, s: Path, now: Entries, t: Path)
    requires SameTree(e, s, now, t)
    ensures s in e <==> t in now
    ensures s in e ==> now[t] == e[s]
  {
    assert s + [] == s && t + [] == t;
  }

  lemma NextIsFramed(e: Entries, now: Entries, now': Entries, src: Path, dst: Path, name: string)
    requires Apart(src, dst) && Frame(e, now, dst, dst) && Kept(e, now, src) && dst in now && now[dst].Dir?
    requires Frame(now, now', dst + [name], Temp(dst + [name]))
    ensures Frame(e, now', dst, dst) && Kept(e, now', src)
    ensures dst in now' && now'[dst].Dir?
  {
    var sub, scratch := dst + [name], Temp(dst + [name]);
    TempIsBeside(sub);
    assert dst <= sub && sub[..|sub| - 1] == dst && scratch[..|dst|] == dst && dst <= scratch;
    assert !(sub <= dst) && dst != scratch;
    forall q | q in now' && !(dst <= q) ensures q in e || (q <= dst && now'[q].Dir?) {
      assert sub <= q ==> dst <= q;
      if q <= sub { assert q == sub || q <= dst; }
    }
    forall q | q in e && !(dst <= q) ensures q in now' && now'[q] == e[q] {
      assert sub <= q ==> dst <= q;
    }
    KeptOfFrame(e, now', src, dst);
  }

  lemma KeptOfFrame(e: Entries, now: Entries, src: Path, dst: Path)
    requires Apart(src, dst) && Frame(e, now, dst, dst)
    ensures Kept(e, now, src)
  {
    FrameKeepsSource(e, now, src, dst, dst);
  }

  /** When every name has been copied, the trees are the same exactly if nothing was lost. */
  lemma DirectoryIsCopied(e: Entries, now: Entries, src: Path, dst: Path, names: seq<string>, orders: Orders)
    requires Fresh(e, src, dst) && PartlyCopied(e, now, src, dst, names, orders) && src in e && e[src].Dir?
    requires Lists(e, src, names)
    ensures EntryCopied(e, now, src, dst, orders[src := names], Nil)
  {
    StoppedIsCopied(e, now, src, dst, orders[src := names]);
    if Plain(e, src) {
      AllAreListed(e, now, src, dst, names, orders);
      AllAreCopied(e, now, src, dst, names, orders);
      AllAreClashFree(e, now, src, dst, names, orders);
      LostAreLost(e, now, src, dst, names, orders);
    }
  }

  /** Below a directory everything lies below one of its entries. */
  lemma BelowAnEntry(e: Entries, src: Path, names: seq<string>, p: Path)
    requires Plain(e, src) && Lists(e, src, names) && p in e && src < p
    ensures p[|src|] in names && src + [p[|src|]] <= p
  {
    var q := p[..|src| + 1];
    assert q == src + [p[|src|]];
    if |src| + 1 < |p| { assert q in e; } else { assert q == p; }
  }

  lemma AllAreListed(e: Entries, now: Entries, src: Path, dst: Path, names: seq<string>, orders: Orders)
    requires PartlyCopied(e, now, src, dst, names, orders) && src in e && e[src].Dir?
    requires Plain(e, src) && Lists(e, src, names)
    ensures Under(orders[src := names], src) && Listed(e, src, orders[src := names])
  {
    var all := orders[src := names];
    forall d | d in all && d != src ensures d in e && e[d].Dir? && Lists(e, d, all[d]) {
      ListedBelow(e, now, src, dst, names, orders, d);
    }
    forall d | d in e && src <= d && e[d].Dir? ensures d in all {
      if d != src { DirectoryIsListed(e, now, src, dst, names, orders, d); }
    }
  }

  lemma ListedBelow(
    e: Entries, now: Entries, src: Path, dst: Path, names: seq<string>, orders: Orders, d: Path)
    requires PartlyCopied(e, now, src, dst, names, orders) && Plain(e, src) && d in orders
    ensures d in e && e[d].Dir? && Lists(e, d, orders[d])
  {
    var i :| 0 <= i < |names| && names[i] == d[|src|];
    assert d[..|src| + 1] == src + [names[i]];
    ListedInChild(e, now, src, dst, names, orders, i, d);
  }

  lemma ListedInChild(
    e: Entries, now: Entries, src: Path, dst: Path, names: seq<string>, orders: Orders, i: nat, d: Path)
    requires i < |names| && ChildCopied(e, now, src, dst, names, i, orders)
    requires d in orders && src + [names[i]] <= d
    ensures d in e && e[d].Dir? && Lists(e, d, orders[d])
  {
  }

  lemma DirectoryIsListed(
    e: Entries, now: Entries, src: Path, dst: Path, names: seq<string>, orders: Orders, d: Path)
    requires PartlyCopied(e, now, src, dst, names, orders) && Plain(e, src) && Lists(e, src, names)
    requires d in e && src < d && e[d].Dir?
    ensures d in orders
  {
    BelowAnEntry(e, src, names, d);
    var i :| 0 <= i < |names| && names[i] == d[|src|];
    assert ChildCopied(e, now, src, dst, names, i, orders);
  }

  ghost predicate ChildrenSame(e: Entries, now: Entries, src: Path, dst: Path, names: seq<string>) {
    forall i :: 0 <= i < |names| ==> SameTree(e, src + [names[i]], now, dst + [names[i]])
  }

  lemma AllAreCopied(e: Entries, now: Entries, src: Path, dst: Path, names: seq<string>, orders: Orders)
    requires PartlyCopied(e, now, src, dst, names, orders) && src in e && e[src].Dir?
    requires Plain(e, src) && Lists(e, src, names)
    ensures SameTree(e, src, now, dst) <==> ChildrenSame(e, now, src, dst, names)
  {
    forall rel: Path ensures src + [] + rel == src + rel && dst + [] + rel == dst + rel {}
    if SameTree(e, src, now, dst) {
      forall i | 0 <= i < |names| ensures SameTree(e, src + [names[i]], now, dst + [names[i]]) {
        SubtreeSame(e, now, src, dst, names[i]);
      }
    }
    if ChildrenSame(e, now, src, dst, names) {
      NamesAreCopied(e, now, src, dst, names);
    }
  }

  lemma SubtreeSame(e: Entries, now: Entries, src: Path, dst: Path, n: string)
    requires SameTree(e, src, now, dst)
    ensures SameTree(e, src + [n], now, dst + [n])
  {
    forall rel: Path ensures
      var s, t := src + [n] + rel, dst + [n] + rel;
      (s in e <==> t in now) && (s in e && t in now ==> e[s] == now[t])
    {
      assert src + [n] + rel == src + ([n] + rel) && dst + [n] + rel == dst + ([n] + rel);
    }
  }

  lemma NamesAreCopied(e: Entries, now: Entries, src: Path, dst: Path, names: seq<string>)
    requires ChildrenSame(e, now, src, dst, names) && Plain(e, src) && src in e && e[src].Dir?
    requires dst in now && now[dst].Dir? && forall q :: q in now && dst < q ==> q[|dst|] in names
    requires forall n :: n in names <==> src + [n] in e
    ensures SameTree(e, src, now, dst)
  {
    forall rel: Path ensures
      (src + rel in e <==> dst + rel in now) && (src + rel in e && dst + rel in now ==> e[src + rel] == now[dst + rel])
    {
      if rel == [] {
        assert src + rel == src && dst + rel == dst;
      } else {
        var n, rest := rel[0], rel[1..];
        assert src + rel == src + [n] + rest && dst + rel == dst + [n] + rest;
        assert (src + rel)[..|src| + 1] == src + [n] && src <= src + rel;
        assert dst < dst + rel && (dst + rel)[|dst|] == n;
        assert rest == [] ==> rel == [n];
        assert src + rel in e ==> n in names;
        assert dst + rel in now ==> n in names;
        if n in names {
          var i :| 0 <= i < |names| && names[i] == n;
          assert SameTree(e, src + [names[i]], now, dst + [names[i]]);
          assert src + [n] + rest in e <==> dst + [n] + rest in now;
        }
      }
    }
  }

  lemma AllAreClashFree(e: Entries, now: Entries, src: Path, dst: Path, names: seq<string>, orders: Orders)
    requires PartlyCopied(e, now, src, dst, names, orders) && Plain(e, src)
    ensures ClashFree(e, src, orders[src := names]) <==> ChildrenSame(e, now, src, dst, names)
  {
    var all := orders[src := names];
    if ClashFree(e, src, all) {
      forall i | 0 <= i < |names| ensures SameTree(e, src + [names[i]], now, dst + [names[i]]) {
        assert ChildCopied(e, now, src, dst, names, i, orders);
        assert KeepsAll(e, src, all[src]);
        forall d | d in orders && src + [names[i]] <= d ensures KeepsAll(e, d, orders[d]) {
          assert src < d && all[d] == orders[d];
        }
      }
    }
    if ChildrenSame(e, now, src, dst, names) {
      SameMeansClashFree(e, now, src, dst, names, orders);
    }
  }

  lemma SameMeansClashFree(e: Entries, now: Entries, src: Path, dst: Path, names: seq<string>, orders: Orders)
    requires PartlyCopied(e, now, src, dst, names, orders) && Plain(e, src) && ChildrenSame(e, now, src, dst, names)
    ensures ClashFree(e, src, orders[src := names])
  {
    forall i | 0 <= i < |names| ensures Fine(e, src, names, i) && ClashFree(e, src + [names[i]], orders) {
      assert SameTree(e, src + [names[i]], now, dst + [names[i]]);
      assert ChildCopied(e, now, src, dst, names, i, orders);
    }
    var all := orders[src := names];
    forall d | d in all && src <= d ensures KeepsAll(e, d, all[d]) {
      if d == src {
        forall i, j | 0 <= i < j < |names| ensures !Clash(e, src, names[i], names[j]) {
          assert Fine(e, src, names, i);
        }
      } else {
        var i :| 0 <= i < |names| && names[i] == d[|src|];
        assert d[..|src| + 1] == src + [names[i]];
        assert ClashFree(e, src + [names[i]], orders);
      }
    }
  }

  lemma LostAreLost(e: Entries, now: Entries, src: Path, dst: Path, names: seq<string>, orders: Orders)
    requires PartlyCopied(e, now, src, dst, names, orders) && Plain(e, src)
    ensures Loses(e, now, src, dst, orders[src := names])
  {
    var all := orders[src := names];
    forall rel: Path, i, j |
      src + rel in all && 0 <= i < j < |all[src + rel]| && Clash(e, src + rel, all[src + rel][i], all[src + rel][j])
      ensures dst + rel + [all[src + rel][i]] !in now
    {
      if rel == [] {
        assert src + rel == src && dst + rel == dst;
        assert ChildCopied(e, now, src, dst, names, i, orders) && !Fine(e, src, names, i);
      } else {
        LostBelow(e, now, src, dst, names, orders, rel, i, j);
      }
    }
  }

  lemma LostBelow(
    e: Entries, now: Entries, src: Path, dst: Path, names: seq<string>, orders: Orders, rel: Path, i: nat, j: nat)
    requires PartlyCopied(e, now, src, dst, names, orders) && Plain(e, src) && rel != [] && src + rel in orders
    requires i < j < |orders[src + rel]| && Clash(e, src + rel, orders[src + rel][i], orders[src + rel][j])
    ensures dst + rel + [orders[src + rel][i]] !in now
  {
    Regrouped(src, rel);
    Regrouped(dst, rel);
    assert (src + rel)[|src|] == rel[0];
    assert rel[0] in names;
    ChildLoses(e, now, src, dst, names, orders, rel[0]);
    LosesAt(e, now, src + [rel[0]], dst + [rel[0]], orders, rel[1..], i, j);
  }

  lemma Regrouped(p: Path, rel: Path)
    requires rel != []
    ensures p + rel == p + [rel[0]] + rel[1..]
  {
  }

  lemma ChildLoses(e: Entries, now: Entries, src: Path, dst: Path, names: seq<string>, orders: Orders, n: string)
    requires PartlyCopied(e, now, src, dst, names, orders) && Plain(e, src) && n in names
    ensures Loses(e, now, src + [n], dst + [n], orders)
  {
    var k :| 0 <= k < |names| && names[k] == n;
    assert ChildCopied(e, now, src, dst, names, k, orders);
  }

  lemma LosesAt(e: Entries, now: Entries, s: Path, t: Path, orders: Orders, rel: Path, i: nat, j: nat)
    requires Loses(e, now, s, t, orders) && s + rel in orders && i < j < |orders[s + rel]|
    requires Clash(e, s + rel, orders[s + rel][i], orders[s + rel][j])
    ensures t + rel + [orders[s + rel][i]] !in now
  {
  }

  /** What a directory copy that stops early promises, and the scratch name beside the directory is never used. */
  lemma StoppedIsCopied(e: Entries, now: Entries, src: Path, dst: Path, orders: Orders)
    requires Fresh(e, src, dst) && Frame(e, now, dst, dst) && Kept(e, now, src)
    ensures EntryCopied(e, now, src, dst, orders, Failure)
    ensures ScratchUsed(e, now, Dir, dst)
  {
    TempIsBeside(dst);
    assert !(Temp(dst) <= dst);
  }

  lemma PreparedIsShallow(e: Entries, now: Entries, src: Path, dst: Path, bound: nat)
    requires !(src <= dst) && Shallow(e, src, bound)
    requires forall q :: q in e ==> q in now && now[q] == e[q]
    requires forall q :: q in now && q !in e ==> q <= dst && now[q].Dir?
    ensures Grown(e, now, dst, bound) && Shallow(now, src, bound)
  {
    forall q | q in now && now[q].Dir? && !(q in e && e[q].Dir?) ensures Near(q, dst, bound) && !(src <= q) {
      assert q <= dst;
      assert src <= q ==> src <= dst;
    }
  }


  /** What a directory copy promises wherever it stops. */
  ghost predicate Stopped(e: Entries, now: Entries, src: Path, dst: Path, orders: Orders, bound: nat) {
    Grown(e, now, dst, bound) && src in e && e[src].Dir? && EntryDone(e, now, src, dst, orders, Failure)
  }

  /** For one of these kinds of destination the source is known to stay. */
  ghost predicate Known(e: Entries, src: Path, dst: Path) {
    Mergeable(e, src, dst) || Followable(e, src, dst)
  }

  ghost predicate Progress(
    e: Entries, now: Entries, src: Path, dst: Path, done: seq<string>, orders: Orders, bound: nat)
  {
    && Grown(e, now, dst, bound) && Shallow(now, src, bound)
    && (Fresh(e, src, dst) ==> PartlyCopied(e, now, src, dst, done, orders))
    && (Mergeable(e, src, dst) ==> PartlyMerged(e, now, src, dst, done))
    && (Followable(e, src, dst) ==> PartlyFollowed(e, now, src, dst, done))
  }

  lemma PreparedProgresses(e: Entries, now: Entries, src: Path, dst: Path, bound: nat)
    requires !(src <= dst) && Shallow(e, src, bound) && src in e && e[src].Dir?
    requires forall q :: q in e ==> q in now && now[q] == e[q]
    requires forall q :: q in now && q !in e ==> q <= dst && now[q].Dir?
    ensures Stopped(e, now, src, dst, map[], bound)
    ensures dst in now && now[dst].Dir? ==> Progress(e, now, src, dst, [], map[], bound)
  {
    PreparedIsShallow(e, now, src, dst, bound);
    if Fresh(e, src, dst) {
      DirectoryIsPrepared(e, now, src, dst);
      StoppedIsCopied(e, now, src, dst, map[]);
    }
    if Mergeable(e, src, dst) {
      DirectoryIsOpened(e, now, src, dst);
    }
    if Followable(e, src, dst) {
      DirectoryIsReady(e, now, src, dst);
    }
  }

  lemma NextProgresses(
    e: Entries, now: Entries, now': Entries, src: Path, dst: Path, done: seq<string>, name: string, orders: Orders,
    more: Orders, bound: nat, err: Error)
    requires !(src <= dst) && bound > 0 && Progress(e, now, src, dst, done, orders, bound) && name !in done
    requires src in e && e[src].Dir? && Grown(now, now', dst + [name], bound - 1)
    requires EntryDone(now, now', src + [name], dst + [name], more, err)
    requires Known(e, src, dst) ==> src + [name] in e
    ensures Stopped(e, now', src, dst, orders + more, bound)
    ensures err == Nil ==> Progress(e, now', src, dst, done + [name], orders + more, bound)
  {
    GrownStaysShallow(now, now', src, dst, name, bound);
    GrownCompose(e, now, now', dst, name, bound);
    if Fresh(e, src, dst) {
      NextIsFresh(now, src, dst, done, name);
      NextIsCopied(e, now, now', src, dst, done, name, orders, more, err);
      StoppedIsCopied(e, now', src, dst, orders + more);
    }
    if Mergeable(e, src, dst) {
      NextMerges(e, now, now', src, dst, done, name, err);
    }
    if Followable(e, src, dst) {
      NextFollows(e, now, now', src, dst, done, name, err);
    }
  }

  lemma NextFollows(
    e: Entries, now: Entries, now': Entries, src: Path, dst: Path, done: seq<string>, name: string, err: Error)
    requires Followable(e, src, dst) && PartlyFollowed(e, now, src, dst, done) && name !in done
    requires src in e && e[src].Dir? && src + [name] in e
    requires Followable(now, src + [name], dst + [name]) ==> Followed(now, now', src + [name], dst + [name], err)
    ensures Followed(e, now', src, dst, Failure)
    ensures err == Nil ==> PartlyFollowed(e, now', src, dst, done + [name])
  {
    ChildIsFollowable(e, now, src, dst, name);
    if Plain(e, src) { SubtreeIsPlain(e, now, src, name); }
    NextIsFollowed(e, now, now', src, dst, done, name, err);
  }

  lemma NextMerges(
    e: Entries, now: Entries, now': Entries, src: Path, dst: Path, done: seq<string>, name: string, err: Error)
    requires Mergeable(e, src, dst) && PartlyMerged(e, now, src, dst, done) && name !in done && src + [name] in e
    requires Mergeable(now, src + [name], dst + [name]) ==> Merged(now, now', src + [name], dst + [name], err)
    ensures Merged(e, now', src, dst, Failure)
    ensures err == Nil ==> PartlyMerged(e, now', src, dst, done + [name])
  {
    ChildIsMergeable(e, now, src, dst, done, name);
    if Plain(e, src) { SubtreeIsPlain(e, now, src, name); }
    NextIsMerged(e, now, now', src, dst, done, name, err);
  }

  lemma ChildIsNotInside(src: Path, dst: Path, name: string)
    requires !(src <= dst)
    ensures !(src + [name] <= dst + [name]) && src <= src + [name]
  {
    if |src| <= |dst| {
      assert (dst + [name])[..|src|] == dst[..|src|] && (src + [name])[..|src|] == src;
    }
  }

  lemma NextIsFresh(now: Entries, src: Path, dst: Path, done: seq<string>, name: string)
    requires Apart(src, dst) && name !in done && forall q :: q in now && dst < q ==> q[|dst|] in done
    ensures Fresh(now, src + [name], dst + [name])
  {
    var a, b := src + [name], dst + [name];
    assert a[..|src|] == src && b[..|dst|] == dst;
    if |src| <= |dst| {
      assert b[..|src|] == dst[..|src|];
    } else {
      assert a[..|dst|] == src[..|dst|];
    }
    forall q | q in now ensures !(b <= q) {
      if dst < q { assert q[|dst|] != b[|dst|]; }
    }
  }

  // ---------- Onto a destination that may exist ----------

  /**
   What copying a file to a name that is a link promises. The link stays whatever happens; a link that cannot be
   resolved, that leads back to the source, or to what is no file, is refused; a copy that succeeds has put the content
   where the link leads, used up the scratch name there, and changed nothing else.
   */
  ghost predicate LinkFollowed(e: Entries, e': Entries, src: Path, dst: Path, data: seq<byte>, err: Error)
    requires IsLink(e, dst)
  {
    && dst in e' && e'[dst] == e[dst]
    && match Canonical(e, dst) {
      case Failed => err != Nil && e' == e
      case Ok(at) =>
        && (at == src || (at in e && !e[at].File?) ==> err != Nil && e' == e)
        && SameAt(e, e', src)
        && (forall q :: q !in {at, Temp(at), Backup(at)} ==> SameAt(e, e', q))
        && (err == Nil ==> at != dst && e' == (e - {Temp(at)})[at := File(data)])
    }
  }

  /** What copying an entry promises, for every kind of destination. */
  ghost predicate EntryDone(e: Entries, e': Entries, src: Path, dst: Path, orders: Orders, err: Error) {
    && (Fresh(e, src, dst) ==> EntryCopied(e, e', src, dst, orders, err))
    && (Mergeable(e, src, dst) ==> Merged(e, e', src, dst, err))
    && (Followable(e, src, dst) ==> Followed(e, e', src, dst, err))
    && (src in e && e[src].File? && IsLink(e, dst) ==> LinkFollowed(e, e', src, dst, e[src].data, err))
  }

  lemma FileIsCopied(e: Entries, e': Entries, src: Path, dst: Path, data: seq<byte>, err: Error)
    requires src in e && (e[src] == File(data) || e[src].Other?)
    requires !FileReady(e, src, dst) ==> err != Nil && e' == e
    requires err == Nil ==> FileReplaced(e, e', dst, data)
    requires FileLanded(e, e', dst, File(data), err)
    requires dst !in e ==> LeafCopied(e, e', dst, File(data), err)
    ensures EntryDone(e, e', src, dst, map[], err)
  {
    if Fresh(e, src, dst) {
      LeafIsCopied(e, e', src, dst, File(data), err);
    }
    if Mergeable(e, src, dst) {
      assert src + [] == src && dst + [] == dst;
      assert !IsLink(e, dst);
      ReplacedIsMerged(e, e', src, dst, File(data), err);
      LeafIsMerged(e, e', src, dst, File(data), err);
    }
    if Followable(e, src, dst) {
      FileIsFollowed(e, e', src, dst, File(data), err);
    }
    if e[src].File? && IsLink(e, dst) {
      LinkIsFollowed(e, e', src, dst, data, err);
    }
  }

  /** A file copied onto a link lands where the link leads. */
  lemma LinkIsFollowed(e: Entries, e': Entries, src: Path, dst: Path, data: seq<byte>, err: Error)
    requires src in e && e[src] == File(data) && IsLink(e, dst)
    requires !FileReady(e, src, dst) ==> err != Nil && e' == e
    requires err == Nil ==> FileReplaced(e, e', dst, data)
    requires FileLanded(e, e', dst, File(data), err)
    ensures LinkFollowed(e, e', src, dst, data, err)
  {
    if Canonical(e, dst).Ok? {
      var at := Canonical(e, dst).value;
      BackupIsBeside(at);
      forall q | q !in {at, Temp(at), Backup(at)} ensures SameAt(e, e', q) {
        OthersStay(e, e', at, q);
      }
    }
  }

  lemma LinkIsCopied(e: Entries, e': Entries, src: Path, dst: Path, target: Target, err: Error)
    requires src in e && e[src] == Link(target) && OnlyReplaced(e, e', dst)
    requires !LinkReady(e, src, dst) ==> err != Nil && e' == e
    requires err == Nil ==> e' == e[dst := Link(target)]
    requires dst !in e ==> LeafCopied(e, e', dst, Link(target), err)
    ensures EntryDone(e, e', src, dst, map[], err)
  {
    if Fresh(e, src, dst) {
      LeafIsCopied(e, e', src, dst, Link(target), err);
    }
    if Mergeable(e, src, dst) {
      assert err == Nil ==> e - {Temp(dst)} == e;
      ReplacedIsMerged(e, e', src, dst, Link(target), err);
      LeafIsMerged(e, e', src, dst, Link(target), err);
    }
  }

  // ---------- Copying ----------

  /**
   remoteCopy. `known` is what an earlier lookup found at the source. A directory is never copied below itself;
   that alone makes the recursion end: `bound` limits how deep the source tree is.
   */
  method CopyEntry(d: Disk, src: Path, dst: Path, known: Option<Node>, ghost bound: nat)
    returns (err: Error, ghost orders: Orders)
    requires known.Some? ==> src in d.entries && d.entries[src] == known.value
    requires src in d.entries && d.entries[src].Dir? ==> !(src <= dst)
    requires Shallow(d.entries, src, bound)
    modifies d
    ensures EntryDone(old(d.entries), d.entries, src, dst, orders, err)
    ensures Copyable(old(d.entries), src, dst) && d.faults == old(d.faults) ==> err == Nil
    ensures old(d.faults) <= d.faults
    ensures Grown(old(d.entries), d.entries, dst, bound)
    decreases bound, 5
  {
    NothingIsDone(d.entries, src, dst);
    err, orders := Failure, map[];
    var goesOn := d.Works();
    if goesOn {
      var found := known;
      if known.None? {
        var info := d.Lstat(src);
        found := if info.Found? then Some(info.node) else None;
      }
      if found.Some? {
        err, orders := CopyNode(d, src, dst, found.value, bound);
      }
    }
  }

  lemma NothingIsDone(e: Entries, src: Path, dst: Path)
    ensures EntryDone(e, e, src, dst, map[], Failure)
  {
  }

  /** The same for what has been found at the source. */
  method CopyNode(d: Disk, src: Path, dst: Path, node: Node, ghost bound: nat)
    returns (err: Error, ghost orders: Orders)
    requires src in d.entries && d.entries[src] == node && (node.Dir? ==> !(src <= dst))
    requires Shallow(d.entries, src, bound)
    modifies d
    ensures EntryDone(old(d.entries), d.entries, src, dst, orders, err)
    ensures Copyable(old(d.entries), src, dst) && d.faults == old(d.faults) ==> err == Nil
    ensures old(d.faults) <= d.faults
    ensures Grown(old(d.entries), d.entries, dst, bound)
    decreases bound, 4
  {
    ghost var before := d.entries;
    orders := map[];
    match node {
      case Link(target) =>
        err := CopyLink(d, src, dst, target);
        LinkIsCopied(before, d.entries, src, dst, target, err);
      case Dir =>
        err, orders := CopyDirectory(d, src, dst, bound);
      case File(data) =>
        err := CopyFile(d, src, dst, data);
        FileIsCopied(before, d.entries, src, dst, data, err);
      case Other =>
        var data: seq<byte> := *;
        err := CopyFile(d, src, dst, data);
        FileIsCopied(before, d.entries, src, dst, data, err);
    }
  }

  // ---------- When nothing fails ----------

  /** No entry that is not a directory has its scratch name taken, except a file whose scratch name is a file's. */
  predicate Unblocked(e: Entries, src: Path) {
    forall p :: p in e && src < p && !e[p].Dir? && Temp(p) in e ==> e[p].File? && e[Temp(p)].File?
  }

  /** Nothing stands in the way of copying an entry to a new name. */
  ghost predicate Ready(e: Entries, src: Path, dst: Path) {
    && src in e && Plain(e, src) && Unblocked(e, src) && Fresh(e, src, dst) && WayIsFree(e, dst)
    && (!e[src].Dir? && Temp(dst) in e ==> Temp(dst) != src && e[src].File? && e[Temp(dst)].File?)
  }

  /** Nothing stands in the way of a copy: to a new name, or of a file or link to any name that can be replaced. */
  ghost predicate Copyable(e: Entries, src: Path, dst: Path) {
    && src != dst && src in e
    && match e[src] {
      case File(_) => FileReady(e, src, dst)
      case Link(_) => LinkReady(e, src, dst)
      case _ => Ready(e, src, dst)
    }
  }

  lemma ReadyIsCopyable(e: Entries, src: Path, dst: Path)
    requires Ready(e, src, dst)
    ensures Copyable(e, src, dst)
  {
  }

  /** Then nothing stands in the way of the next entry either. */
  lemma NextIsReady(
    e: Entries, now: Entries, src: Path, dst: Path, done: seq<string>, name: string, orders: Orders)
    requires Ready(e, src, dst) && PartlyCopied(e, now, src, dst, done, orders) && name !in done && src + [name] in e
    ensures Ready(now, src + [name], dst + [name])
  {
    assert src <= src + [name];
    SubtreeIsPlain(e, now, src, name);
    SubtreeIsUnblocked(e, now, src, name);
    NextIsFresh(now, src, dst, done, name);
    WayStaysFree(e, now, dst, name);
    if Temp(dst + [name]) in now { ScratchOfNext(e, now, src, dst, done, name, orders); }
  }

  lemma SubtreeIsUnblocked(e: Entries, now: Entries, src: Path, n: string)
    requires Unblocked(e, src) && Kept(e, now, src)
    ensures Unblocked(now, src + [n])
  {
    forall p | p in now && src + [n] < p && !now[p].Dir? && Temp(p) in now ensures now[p].File? && now[Temp(p)].File? {
      assert src <= p && p == src + p[|src|..];
      BesideBelow(src, p[|src|..]);
    }
  }

  lemma WayStaysFree(e: Entries, now: Entries, dst: Path, name: string)
    requires WayIsFree(e, dst) && Frame(e, now, dst, dst) && dst in now && now[dst].Dir? && dst + [name] !in now
    ensures WayIsFree(now, dst + [name])
  {
    var sub := dst + [name];
    assert sub[..|sub|] == sub && sub[..|dst|] == dst;
    forall k | 0 <= k < |dst| ensures sub[..k] == dst[..k] && !(dst <= dst[..k]) {}
  }

  /** What lies at the scratch name of the next entry is the copy of a file. */
  lemma ScratchOfNext(
    e: Entries, now: Entries, src: Path, dst: Path, done: seq<string>, name: string, orders: Orders)
    requires Ready(e, src, dst) && PartlyCopied(e, now, src, dst, done, orders) && src + [name] in e
    requires Temp(dst + [name]) in now
    ensures Temp(dst + [name]) != src + [name]
    ensures !e[src + [name]].Dir? ==> e[src + [name]].File? && now[Temp(dst + [name])].File?
  {
    var suffixed := name + TEMP_SUFFIX;
    assert Temp(src + [name]) == src + [suffixed] && Temp(dst + [name]) == dst + [suffixed];
    assert dst < dst + [suffixed] && (dst + [suffixed])[|dst|] == suffixed;
    assert src < src + [name];
    ApartAbove(src, dst, src + [name]);
    var i :| 0 <= i < |done| && done[i] == suffixed;
    assert ChildCopied(e, now, src, dst, done, i, orders);
    if !e[src + [name]].Dir? { CopiedFileIsFile(e, now, src, dst, done, i, orders); }
  }

  lemma CopiedFileIsFile(
    e: Entries, now: Entries, src: Path, dst: Path, done: seq<string>, i: nat, orders: Orders)
    requires i < |done| && ChildCopied(e, now, src, dst, done, i, orders)
    requires src + [done[i]] in e && e[src + [done[i]]].File? && Plain(e, src) && dst + [done[i]] in now
    ensures now[dst + [done[i]]].File?
  {
    var s := src + [done[i]];
    forall d | d in e && s < d ensures e[s].Dir? {
      AboveIsDirectory(e, src, s, d);
    }
    SameTreeAt(e, s, now, dst + [done[i]]);
  }

  lemma AboveIsDirectory(e: Entries, src: Path, p: Path, d: Path)
    requires Plain(e, src) && src <= p && d in e && p < d
    ensures p in e && e[p].Dir?
  {
    assert d[..|p|] == p;
  }

  /** prepareRemoteDestinationDirectory. */
  method PrepareDirectory(d: Disk, dst: Path) returns (err: Error)
    modifies d
    ensures err == Nil ==> dst in d.entries && d.entries[dst].Dir?
    ensures old(d.faults) <= d.faults
    ensures dst in old(d.entries) && !old(d.entries)[dst].Dir? ==> err != Nil && d.entries == old(d.entries)
    ensures WayIsFree(old(d.entries), dst) && d.faults == old(d.faults) ==> err == Nil
    ensures forall q :: q in old(d.entries) ==> q in d.entries && d.entries[q] == old(d.entries)[q]
    ensures forall q :: q in d.entries && q !in old(d.entries) ==> q <= dst && d.entries[q].Dir?
  {
    assert dst[..|dst|] == dst;
    var info := d.Lstat(dst);
    if info.Unknown? || (info.Found? && !info.node.Dir?) {
      return Failure;
    }
    var answers := d.Works();
    if !answers {
      return Failure;
    }
    err := MkdirAll(d, dst);
    var modeSet := d.Works();
    if err == Nil && !modeSet {
      err := Failure;
    }
  }

  /** remoteCopyDirectory. */
  method CopyDirectory(d: Disk, src: Path, dst: Path, ghost bound: nat) returns (err: Error, ghost orders: Orders)
    requires src in d.entries && d.entries[src].Dir? && !(src <= dst)
    requires Shallow(d.entries, src, bound)
    modifies d
    ensures EntryDone(old(d.entries), d.entries, src, dst, orders, err)
    ensures Ready(old(d.entries), src, dst) && d.faults == old(d.faults) ==> err == Nil
    ensures old(d.faults) <= d.faults
    ensures Grown(old(d.entries), d.entries, dst, bound)
    decreases bound, 3
  {
    ghost var before := d.entries;
    err, orders := Failure, map[];
    var entries := OpenDirectory(d, src, dst, bound);
    if entries.Ok? {
      err, orders := CopyListed(d, src, dst, entries.value, before, bound);
    }
  }

  /** The entries are copied, and then the directory gets its times and its mode. */
  method CopyListed(
    d: Disk, src: Path, dst: Path, names: seq<string>, ghost before: Entries, ghost bound: nat)
    returns (err: Error, ghost orders: Orders)
    requires !(src <= dst) && bound > 0 && Distinct(names)
    requires Stopped(before, d.entries, src, dst, map[], bound)
    requires Progress(before, d.entries, src, dst, [], map[], bound)
    requires Known(before, src, dst) ==> Lists(before, src, names)
    modifies d
    ensures Grown(before, d.entries, dst, bound) && EntryDone(before, d.entries, src, dst, orders, err)
    ensures old(d.faults) <= d.faults
    ensures Ready(before, src, dst) && d.faults == old(d.faults) ==> err == Nil
    decreases bound, 2
  {
    err, orders := CopyEntries(d, src, dst, names, before, bound);
    if err != Nil {
      FailuresAgree(before, d.entries, src, dst, orders, err);
    } else {
      CopiedAll(before, d.entries, src, dst, names, orders, bound);
      orders := orders[src := names];
      var stamped := d.Works();
      err := if stamped then Nil else Failure;
    }
  }

  lemma FailuresAgree(e: Entries, e': Entries, src: Path, dst: Path, orders: Orders, err: Error)
    requires err != Nil && EntryDone(e, e', src, dst, orders, Failure)
    ensures EntryDone(e, e', src, dst, orders, err)
  {
  }

  /** The destination directory is made and the source directory is listed. */
  method OpenDirectory(d: Disk, src: Path, dst: Path, ghost bound: nat) returns (names: Result<seq<string>>)
    requires src in d.entries && d.entries[src].Dir? && !(src <= dst)
    requires Shallow(d.entries, src, bound)
    modifies d
    ensures bound > 0 && Stopped(old(d.entries), d.entries, src, dst, map[], bound)
    ensures names.Ok? ==>
      && Progress(old(d.entries), d.entries, src, dst, [], map[], bound)
      && Distinct(names.value) && (Known(old(d.entries), src, dst) ==> Lists(old(d.entries), src, names.value))
    ensures WayIsFree(old(d.entries), dst) && d.faults == old(d.faults) ==> names.Ok?
    ensures old(d.faults) <= d.faults
  {
    ghost var before := d.entries;
    assert bound > 0;
    var err := PrepareDirectory(d, dst);
    PreparedProgresses(before, d.entries, src, dst, bound);
    var goesOn := d.Works();
    if err != Nil || !goesOn {
      return Failed;
    }
    names := ReadDir(d, src);
    if names.Ok? {
      SourceIsKept(before, d.entries, src, dst, [], map[], bound);
      ListsKept(before, d.entries, src, names.value);
    }
  }

  lemma FreshIsMergeable(e: Entries, src: Path, dst: Path)
    ensures Fresh(e, src, dst) ==> Mergeable(e, src, dst)
  {
  }

  lemma ListsKept(e: Entries, now: Entries, src: Path, names: seq<string>)
    requires Lists(now, src, names)
    ensures Kept(e, now, src) ==> Lists(e, src, names)
  {
    forall n ensures src <= src + [n] {}
  }

  lemma SourceIsKept(e: Entries, now: Entries, src: Path, dst: Path, done: seq<string>, orders: Orders, bound: nat)
    requires Progress(e, now, src, dst, done, orders, bound)
    ensures Known(e, src, dst) ==> Kept(e, now, src)
  {
  }

  /** When every entry has been copied, so has the directory, whatever is made of its times and modes. */
  lemma CopiedAll(
    e: Entries, now: Entries, src: Path, dst: Path, names: seq<string>, orders: Orders, bound: nat)
    requires Stopped(e, now, src, dst, orders, bound) && Progress(e, now, src, dst, names, orders, bound)
    requires src in e && e[src].Dir? && (Known(e, src, dst) ==> Lists(e, src, names))
    ensures EntryDone(e, now, src, dst, orders[src := names], Nil)
    ensures EntryDone(e, now, src, dst, orders[src := names], Failure)
  {
    FreshIsMergeable(e, src, dst);
    if Fresh(e, src, dst) {
      DirectoryIsCopied(e, now, src, dst, names, orders);
      StoppedIsCopied(e, now, src, dst, orders[src := names]);
    }
    if Mergeable(e, src, dst) {
      DirectoryIsMerged(e, now, src, dst, names);
    }
    if Followable(e, src, dst) {
      DirectoryIsFollowed(e, now, src, dst, names);
    }
  }

  /** The loop over the entries of a directory. */
  method CopyEntries(
    d: Disk, src: Path, dst: Path, names: seq<string>, ghost before: Entries, ghost bound: nat)
    returns (err: Error, ghost orders: Orders)
    requires !(src <= dst) && bound > 0 && Distinct(names)
    requires Stopped(before, d.entries, src, dst, map[], bound)
    requires Progress(before, d.entries, src, dst, [], map[], bound)
    requires Known(before, src, dst) ==> Lists(before, src, names)
    modifies d
    ensures old(d.faults) <= d.faults
    ensures Ready(before, src, dst) && d.faults == old(d.faults) ==> err == Nil
    ensures Stopped(before, d.entries, src, dst, orders, bound)
    ensures err == Nil ==> Progress(before, d.entries, src, dst, names, orders, bound)
    decreases bound, 1
  {
    orders := map[];
    var i := 0;
    ghost var done := [];
    while i < |names|
      invariant |done| == i && done <= names
      invariant Stopped(before, d.entries, src, dst, orders, bound)
      invariant Progress(before, d.entries, src, dst, done, orders, bound)
      invariant old(d.faults) <= d.faults
    {
      var goesOn := d.Works();
      if !goesOn {
        return Failure, orders;
      }
      NextName(before, src, dst, names, done);
      err, orders := CopyNext(d, src, dst, done, names[i], before, orders, bound);
      if err != Nil {
        return;
      }
      done := done + [names[i]];
      i := i + 1;
    }
    assert done == names;
    return Nil, orders;
  }

  lemma NextName(e: Entries, src: Path, dst: Path, names: seq<string>, done: seq<string>)
    requires Distinct(names) && done < names && (Known(e, src, dst) ==> Lists(e, src, names))
    ensures var n := names[|done|]; n !in done && done + [n] <= names
    ensures Known(e, src, dst) ==> src + [names[|done|]] in e
  {
    assert names[|done|] in names;
  }

  /** One turn of the loop. */
  method CopyNext(
    d: Disk, src: Path, dst: Path, ghost done: seq<string>, name: string, ghost before: Entries,
    ghost orders0: Orders, ghost bound: nat)
    returns (err: Error, ghost orders: Orders)
    requires !(src <= dst) && bound > 0 && name !in done
    requires Progress(before, d.entries, src, dst, done, orders0, bound)
    requires src in before && before[src].Dir? && (Known(before, src, dst) ==> src + [name] in before)
    modifies d
    ensures Stopped(before, d.entries, src, dst, orders, bound)
    ensures err == Nil ==> Progress(before, d.entries, src, dst, done + [name], orders, bound)
    ensures old(d.faults) <= d.faults
    ensures Ready(before, src, dst) && d.faults == old(d.faults) ==> err == Nil
    decreases bound, 0
  {
    ghost var now := d.entries;
    ChildIsNotInside(src, dst, name);
    if Ready(before, src, dst) {
      FreshIsMergeable(before, src, dst);
      NextIsReady(before, now, src, dst, done, name, orders0);
      ReadyIsCopyable(now, src + [name], dst + [name]);
    }
    ghost var more;
    err, more := CopyEntry(d, src + [name], dst + [name], None, bound - 1);
    NextProgresses(before, now, d.entries, src, dst, done, name, orders0, more, bound, err);
    orders := orders0 + more;
  }

  /** How deep a store is. */
  ghost function Depth(paths: set<Path>): (n: nat)
    ensures forall q :: q in paths ==> |q| < n
    decreases |paths|
  {
    if paths == {} then 0
    else
      var p :| p in paths;
      var rest := Depth(paths - {p});
      assert forall q :: q in paths ==> q == p || q in paths - {p};
      if |p| < rest then rest else |p| + 1
  }

  /**
   What copying between two resolved paths promises. A plain tree is copied exactly unless some directory lists a file
   before the one whose scratch name it has; what is listed so has no copy.
   */
  ghost predicate CopiedBetween(e: Entries, e': Entries, src: Path, dst: Path, orders: Orders, err: Error) {
    && (src == dst || src !in e || (e[src].Dir? && Contains(src, dst)) ==> err != Nil && e' == e)
    && (Clear(e, dst) && !(src <= dst) ==>
          && Kept(e, e', src)
          && Frame(e, e', dst, Temp(dst))
          && (err == Nil && Plain(e, src) ==>
                && Listed(e, src, orders)
                && (SameTree(e, src, e', dst) <==> ClashFree(e, src, orders))
                && Loses(e, e', src, dst, orders))
          && (err == Nil && Plain(e, src) && Unclashing(e, src) ==> SameTree(e, src, e', dst)))
    && (Mergeable(e, src, dst) ==> Merged(e, e', src, dst, err))
    && (Followable(e, src, dst) ==> Followed(e, e', src, dst, err))
    && (src in e && e[src].File? && IsLink(e, dst) ==> LinkFollowed(e, e', src, dst, e[src].data, err))
  }

  /** RemoteCopy on cleaned absolute paths; `orders` is what the server listed. */
  method RemoteCopy(d: Disk, src: Path, dst: Path) returns (err: Error, ghost orders: Orders)
    requires Shaped(d.entries)
    modifies d
    ensures EntryPath(old(d.entries), src).Failed? || EntryPath(old(d.entries), dst).Failed? ==>
      err != Nil && d.entries == old(d.entries)
    ensures EntryPath(old(d.entries), src).Ok? && EntryPath(old(d.entries), dst).Ok? ==>
      CopiedBetween(old(d.entries), d.entries,
        EntryPath(old(d.entries), src).value, EntryPath(old(d.entries), dst).value, orders, err)
    ensures EntryPath(old(d.entries), src).Ok? && EntryPath(old(d.entries), dst).Ok? ==>
      Copyable(old(d.entries), EntryPath(old(d.entries), src).value, EntryPath(old(d.entries), dst).value) ==>
        d.faults == old(d.faults) ==> err == Nil
  {
    ghost var before := d.entries;
    err, orders := Failure, map[];
    var source := CanonicalRemoteEntryPath(d, src);
    if source.Ok? {
      EntryPathParentIsLinkFree(before, src);
      var destination := CanonicalRemoteEntryPath(d, dst);
      if destination.Ok? {
        err, orders := CopyResolved(d, source.value, destination.value);
        return;
      }
    }
    if EntryPath(before, src).Ok? && EntryPath(before, dst).Ok? {
      NothingIsCopied(before, EntryPath(before, src).value, EntryPath(before, dst).value);
    }
  }

  lemma NothingIsCopied(e: Entries, src: Path, dst: Path)
    ensures CopiedBetween(e, e, src, dst, map[], Failure)
  {
    NothingIsDone(e, src, dst);
  }

  /** The same once both paths have been resolved. */
  method CopyResolved(d: Disk, src: Path, dst: Path) returns (err: Error, ghost orders: Orders)
    requires !IsLink(d.entries, src) ==> Canonical(d.entries, src) == Ok(src)
    modifies d
    ensures CopiedBetween(old(d.entries), d.entries, src, dst, orders, err)
    ensures Copyable(old(d.entries), src, dst) && d.faults == old(d.faults) ==> err == Nil
    ensures old(d.faults) <= d.faults
  {
    orders := map[];
    if src == dst {
      return Failure, orders;
    }
    var info := d.Lstat(src);
    if !info.Found? {
      return Failure, orders;
    }
    var sourcePath := src;
    if info.node.Dir? {
      var canonical := CanonicalRemotePath(d, sourcePath);
      if canonical.Failed? || Contains(canonical.value, dst) {
        return Failure, orders;
      }
      sourcePath := canonical.value;
    }
    ghost var before := d.entries;
    err, orders := CopyEntry(d, sourcePath, dst, Some(info.node), Depth(d.entries.Keys));
    DoneIsBetween(before, d.entries, sourcePath, dst, orders, err);
  }

  lemma DoneIsBetween(e: Entries, e': Entries, src: Path, dst: Path, orders: Orders, err: Error)
    requires src != dst && src in e && !(e[src].Dir? && Contains(src, dst))
    requires EntryDone(e, e', src, dst, orders, err)
    ensures CopiedBetween(e, e', src, dst, orders, err)
  {
    if Unclashing(e, src) {
      UnclashingIsClashFree(e, src, orders);
    }
  }

  // ---------- A copy that loses a file ----------

  /** A directory that lists a file before the one whose scratch name it has is not copied, whatever else it holds. */
  lemma ClashLosesFile(e: Entries, e': Entries, src: Path, dst: Path, orders: Orders, i: nat, j: nat)
    requires TreeCopied(e, e', src, dst, orders) && src in orders && i < j < |orders[src]|
    requires Clash(e, src, orders[src][i], orders[src][j])
    ensures src + [orders[src][i]] in e && dst + [orders[src][i]] !in e' && !SameTree(e, src, e', dst)
  {
    var rel: Path := [];
    assert src + rel == src && dst + rel == dst;
    assert src + rel in orders && Clash(e, src + rel, orders[src + rel][i], orders[src + rel][j]);
  }

  /** A file copied onto a link that leads back into the tree being copied changes that tree. */
  lemma LinkIntoSourceChangesIt(e: Entries, e': Entries, src: Path, dst: Path, a: Path, b: Path, data: seq<byte>)
    requires IsLink(e, dst + b) && Canonical(e, dst + b) == Ok(src + a)
    requires src + a in e && e[src + a] != File(data)
    requires LinkFollowed(e, e', src + b, dst + b, data, Nil)
    ensures src + a in e' && e'[src + a] == File(data) && !Kept(e, e', src)
  {
    assert src <= src + a;
  }
}
