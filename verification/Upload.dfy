/**
 Uploading through a remote temporary file. A resumed serial upload moves only the source to the resume position and
 writes the rest at the beginning of the temporary file; what this makes of the destination is stated exactly.
 */
module Upload {
  import opened Prelude
  import opened FileStore
  import opened Replacement
  import opened ParallelTransfer
  import opened Download

  /** The rest is copied by one loop rather than by parallel workers. */
  predicate Serial(cfg: Config, rest: int) {
    rest < cfg.chunkSize || cfg.threadsPerFile <= 1
  }

  /** What the temporary file holds after an upload resumed at `k` has succeeded. */
  function Uploaded(cfg: Config, src: seq<byte>, k: nat): seq<byte>
    requires k <= |src|
  {
    if k < |src| && Serial(cfg, |src| - k) then Copied(src[..k], 0, src, k, |src| - k) else src
  }

  /** A successful upload holds the source exactly unless a serial one was resumed inside the file. */
  lemma UploadedIsSourceIff(cfg: Config, src: seq<byte>, k: nat)
    requires k <= |src|
    ensures Uploaded(cfg, src, k) == src <==> k == 0 || k == |src| || !Serial(cfg, |src| - k)
  {
    if k < |src| && Serial(cfg, |src| - k) {
      var rest := src[k..k + (|src| - k)];
      assert rest == src[k..];
      if k == 0 {
        assert src[..0] == [] && rest == src;
        assert Overwrite([], 0, src) == src;
      } else {
        assert |Uploaded(cfg, src, k)| == if k >= |src| - k then k else |src| - k;
      }
    }
  }

  /** One byte already there, one to go: the copy is one byte long. */
  lemma SerialResumeLosesPrefix(cfg: Config)
    requires cfg.chunkSize > 1
    ensures Uploaded(cfg, [1, 2], 1) == [2]
  {
    var src: seq<byte> := [1, 2];
    assert src[..1] == [1] && src[1..2] == [2];
  }

  /**
   prepareUploadFile: what is kept of the temporary file is a beginning of the source, and only if it may be resumed;
   when nothing fails, it is kept exactly then.
   */
  method PrepareUploadFile(d: Disk, temp: Path, src: seq<byte>, cfg: Config) returns (r: Result<nat>)
    modifies d
    ensures r.Ok? ==> r.value <= |src| && d.entries == old(d.entries)[temp := File(src[..r.value])]
    ensures r.Ok? ==> r.value == 0 || r.value == ResumeAt(cfg, old(d.entries), temp, src)
    ensures Writable(old(d.entries), temp) && d.faults == old(d.faults) ==>
      r == Ok(ResumeAt(cfg, old(d.entries), temp, src))
    ensures !Writable(old(d.entries), temp) ==> r.Failed? && d.entries == old(d.entries)
    ensures old(d.faults) <= d.faults
    ensures OnlyTouched(old(d.entries), old(d.history), d, {temp})
  {
    var info := d.Lstat(temp);
    if info.Unknown? || (info.Found? && !info.node.File?) {
      return Failed;
    }
    var opens := d.Works();
    if !opens {
      return Failed;
    }
    assert src[..0] == [];
    if info.Missing? {
      var err := d.Create(temp);
      return if err == Nil then Ok(0) else Failed;
    }
    var startOffset := 0;
    var tempSize := |info.node.data|;
    if cfg.enableResume && tempSize <= |src| && tempSize >= cfg.resumeMinSize {
      startOffset := tempSize;
    } else {
      d.Store(temp, []);
    }
    var verified := d.Works();
    if !verified {
      return Failed;
    }
    if startOffset > 0 {
      r := KeepOrReset(d, temp, src, startOffset);
      return;
    }
    assert d.entries[temp] == File(src[..0]);
    return Ok(0);
  }

  /** doUpload: the serial path writes from the beginning of the temporary file. */
  method DoUpload(d: Disk, temp: Path, src: seq<byte>, startOffset: nat, cfg: Config, ctx: Context) returns (err: Error)
    requires startOffset <= |src| && temp in d.entries && d.entries[temp] == File(src[..startOffset])
    requires cfg.chunkSize > 0
    modifies d, ctx
    ensures old(ctx.done) ==> ctx.done
    ensures err == Nil && !ctx.done ==> d.entries == old(d.entries)[temp := File(Uploaded(cfg, src, startOffset))]
    ensures temp in d.entries && d.entries[temp].File?
    ensures OnlyTouched(old(d.entries), old(d.history), d, {temp})
    ensures old(d.faults) <= d.faults && (d.faults == old(d.faults) && !ctx.done ==> err == Nil)
  {
    var expired := ctx.Err();
    if expired {
      return Failure;
    }
    if |src| - startOffset <= 0 {
      assert src[..startOffset] == src;
      assert d.entries == d.entries[temp := File(src)];
      return Nil;
    }
    if |src| - startOffset < cfg.chunkSize || cfg.threadsPerFile <= 1 {
      var seeks := d.Works();
      if startOffset > 0 && !seeks {
        return Failure;
      }
      err := CopyExact(d, temp, 0, src, startOffset, |src| - startOffset, ctx);
      return;
    }
    var failed, cancelled := Transfer(d, temp, Job(src, startOffset, cfg.chunkSize, cfg.threadsPerFile), ctx.done);
    ctx.done := cancelled;
    return if failed then Failure else Nil;
  }

  /** From the first look at the temporary file to its last byte. */
  method FillTemporary(d: Disk, temp: Path, src: seq<byte>, cfg: Config, ctx: Context) returns (start: Result<nat>)
    requires cfg.chunkSize > 0
    modifies d, ctx
    ensures start.Ok? ==> start.value <= |src|
    ensures start.Ok? ==> d.entries == old(d.entries)[temp := File(Uploaded(cfg, src, start.value))]
    ensures start.Ok? ==> start.value == 0 || start.value == ResumeAt(cfg, old(d.entries), temp, src)
    ensures old(ctx.done) ==> ctx.done
    ensures old(d.faults) <= d.faults
    ensures Writable(old(d.entries), temp) && d.faults == old(d.faults) && !ctx.done ==>
      start == Ok(ResumeAt(cfg, old(d.entries), temp, src))
    ensures OnlyTouched(old(d.entries), old(d.history), d, {temp})
  {
    ghost var before, past := d.entries, d.history;
    var expired := ctx.Err();
    if expired {
      return Failed;
    }
    start := PrepareUploadFile(d, temp, src, cfg);
    if start.Failed? {
      return;
    }
    ghost var prepared, middle := d.entries, d.history;
    expired := ctx.Err();
    var chmodOk := d.Works();
    if expired || !chmodOk {
      return Failed;
    }
    var err := DoUpload(d, temp, src, start.value, cfg, ctx);
    TouchedFurther(before, past, prepared, middle, d, {temp});
    var closed := d.Works();
    expired := ctx.Err();
    if err != Nil || !closed || expired {
      return Failed;
    }
  }

  /** What is safe for a replacement by the finished temporary file is safe for the destination. */
  lemma ReplacedIsSafe(
    before: Entries, past: seq<Entries>, d: Disk, temp: Path, remote: Path, backup: Path, err: Error, data: seq<byte>)
    requires temp != remote && temp != backup && remote != backup
    requires Replaced(before, past, d, temp, remote, backup, err) && temp in before && before[temp] == File(data)
    ensures AllSafe(before, past, d, remote, backup, data)
  {
    ReplacementIsSafe(before, past, d, temp, remote, backup, err);
    StagesAreSafe(before, d.entries, temp, remote, backup);
  }

  /** The finished temporary file takes the place of the destination. */
  method PromoteUpload(d: Disk, temp: Path, remote: Path, ghost before: Entries, ghost data: seq<byte>)
    returns (err: Error)
    requires temp == TempName(remote) && d.entries == before[temp := File(data)]
    modifies d
    ensures err == Nil ==> d.entries == (before - {temp})[remote := File(data)]
    ensures AllSafe(before, old(d.history), d, remote, WithSuffix(temp, BACKUP_SUFFIX), data)
    ensures old(d.faults) <= d.faults && (d.faults == old(d.faults) ==> err == Nil)
  {
    SuffixesDiffer(remote, TEMP_SUFFIX, BACKUP_SUFFIX);
    ghost var complete, past, backup := d.entries, d.history, WithSuffix(temp, BACKUP_SUFFIX);
    err := ReplaceRemoteFile(d, temp, remote);
    ReplacedIsSafe(complete, past, d, temp, remote, backup, err, data);
    SafeForSame(before, complete, past, d.history, d.entries, remote, backup, data);
    WrittenAndRenamed(before, temp, remote, File(data));
  }

  /** The upload itself, once it is known to be wanted. */
  method Send(d: Disk, remote: Path, src: seq<byte>, cfg: Config, ctx: Context) returns (done: bool, start: nat)
    requires cfg.chunkSize > 0
    modifies d, ctx
    ensures start <= |src|
    ensures done ==> d.entries == (old(d.entries) - {TempName(remote)})[remote := File(Uploaded(cfg, src, start))]
    ensures start == 0 || start == ResumeAt(cfg, old(d.entries), TempName(remote), src)
    ensures old(d.faults) <= d.faults
    ensures Writable(old(d.entries), TempName(remote)) && d.faults == old(d.faults) && !ctx.done ==>
      done && start == ResumeAt(cfg, old(d.entries), TempName(remote), src)
    ensures AllSafe(
      old(d.entries), old(d.history), d, remote, WithSuffix(TempName(remote), BACKUP_SUFFIX), Uploaded(cfg, src, start))
  {
    ghost var before, past := d.entries, d.history;
    var temp := TempName(remote);
    ghost var backup := WithSuffix(temp, BACKUP_SUFFIX);
    SuffixesDiffer(remote, TEMP_SUFFIX, BACKUP_SUFFIX);
    var filled := FillTemporary(d, temp, src, cfg, ctx);
    start := if filled.Ok? then filled.value else 0;
    ghost var complete, middle, data := d.entries, d.history, Uploaded(cfg, src, start);
    TouchedIsSafe(before, past, d, {temp}, remote, backup, data);
    var checksPass := d.Works();
    var expired := ctx.Err();
    if filled.Failed? || !checksPass || expired {
      return false, start;
    }
    var err := PromoteUpload(d, temp, remote, before, data);
    SafeFurther(before, past, middle, complete, d.history, d.entries, remote, backup, data);
    done := err == Nil;
  }

  /** What may be resumed: a proper part of the source under the temporary name, to which one loop adds the rest. */
  predicate SerialResumeDue(cfg: Config, e: Entries, temp: Path, src: seq<byte>) {
    var k := ResumeAt(cfg, e, temp, src);
    0 < k < |src| && Serial(cfg, |src| - k)
  }

  /** Resuming what is there is right exactly when no serial resume is due. */
  lemma ResumeIsRightIff(cfg: Config, e: Entries, temp: Path, src: seq<byte>)
    ensures Uploaded(cfg, src, ResumeAt(cfg, e, temp, src)) == src <==> !SerialResumeDue(cfg, e, temp, src)
  {
    UploadedIsSourceIff(cfg, src, ResumeAt(cfg, e, temp, src));
  }

  /**
   uploadFile. When it completes without skipping, the destination holds exactly what a successful copy from the resume
   position produces, and the temporary name is free; unless a serial resume was due, that is the source. At every
   moment the old destination is still there or at its backup name, or a finished upload has replaced it. When nothing
   fails and the context holds out, it is complete, unless it may be skipped, and has resumed what could be resumed.
   */
  method UploadFile(d: Disk, remote: Path, src: seq<byte>, size: int, sameTime: bool, cfg: Config, ctx: Context)
    returns (r: Outcome, start: nat)
    requires cfg.chunkSize > 0
    modifies d, ctx
    ensures r == Skipped ==>
      !cfg.force && UpToDate(old(d.entries), remote, src, sameTime) && d.entries == old(d.entries)
    ensures start <= |src| && (r != Refused ==> |src| == size)
    ensures r == Completed ==>
      d.entries == (old(d.entries) - {TempName(remote)})[remote := File(Uploaded(cfg, src, start))]
    ensures start == 0 || start == ResumeAt(cfg, old(d.entries), TempName(remote), src)
    ensures r == Completed && !SerialResumeDue(cfg, old(d.entries), TempName(remote), src) ==>
      d.entries == (old(d.entries) - {TempName(remote)})[remote := File(src)]
    ensures AllSafe(
      old(d.entries), old(d.history), d, remote, WithSuffix(TempName(remote), BACKUP_SUFFIX), Uploaded(cfg, src, start))
    ensures |src| == size && Writable(old(d.entries), TempName(remote)) && d.faults == old(d.faults) && !ctx.done ==>
      || (r == Completed && start == ResumeAt(cfg, old(d.entries), TempName(remote), src))
      || (r == Skipped && !cfg.force && UpToDate(old(d.entries), remote, src, sameTime))
    ensures r == Completed && !cfg.force && remote in old(d.entries) && old(d.entries)[remote].File? ==>
      !UpToDate(old(d.entries), remote, src, sameTime)
  {
    ghost var before := d.entries;
    start := 0;
    var expired := ctx.Err();
    var isOpen := d.Works();
    if expired || !isOpen || |src| != size {
      return Refused, 0;
    }
    if !cfg.force {
      expired := ctx.Err();
      if expired {
        return Refused, 0;
      }
      var skip := ShouldSkip(d, remote, src, sameTime);
      if skip.Failed? {
        return Refused, 0;
      }
      if skip.value {
        var released := d.Works();
        return if released then Skipped else Refused, 0;
      }
    }
    var done;
    done, start := Send(d, remote, src, cfg, ctx);
    var closed := d.Works();
    r := if done && closed then Completed else Refused;
    ResumeIsRightIff(cfg, before, TempName(remote), src);
    UploadedIsSourceIff(cfg, src, 0);
  }
}
