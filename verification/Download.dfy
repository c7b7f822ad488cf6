/**
 Resumable download: a temporary file of any prior content is validated, completed serially or in parallel, and
 promoted to its destination.
 */
module Download {
  import opened Prelude
  import opened FileStore
  import opened ParallelTransfer
  import opened Replacement

  /** A context that may expire whenever it is looked at, and stays expired. */
  class Context {
    var done: bool

    constructor ()
    {
    }

    method Err() returns (expired: bool)
      modifies this
      ensures old(done) ==> done
      ensures expired == done
    {
      var expires: bool := *;
      done := done || expires;
      expired := done;
    }
  }

  /** Every state since `past`, and the present one, differ from `before` at most at `names`. */
  ghost predicate OnlyTouched(before: Entries, past: seq<Entries>, d: Disk, names: set<Path>)
    reads d
  {
    && |past| <= |d.history| && d.history[..|past|] == past
    && (forall i :: |past| <= i < |d.history| ==> d.history[i] - names == before - names)
    && d.entries - names == before - names
  }

  lemma TouchedFurther(
    e0: Entries, past0: seq<Entries>, e1: Entries, past1: seq<Entries>, d: Disk, names: set<Path>)
    requires |past0| <= |past1| && past1[..|past0|] == past0 && e1 - names == e0 - names
    requires forall i :: |past0| <= i < |past1| ==> past1[i] - names == e0 - names
    requires OnlyTouched(e1, past1, d, names)
    ensures OnlyTouched(e0, past0, d, names)
  {
    assert d.history[..|past0|] == d.history[..|past1|][..|past0|];
    forall i | |past0| <= i < |d.history| ensures d.history[i] - names == e0 - names {
      if i < |past1| { assert d.history[i] == d.history[..|past1|][i]; }
    }
  }

  // ---------- Serial copy ----------

  lemma OverwriteTwice(data: seq<byte>, off: nat, a: seq<byte>, b: seq<byte>)
    requires off <= |data|
    ensures Overwrite(Overwrite(data, off, a), off + |a|, b) == Overwrite(data, off, a + b)
  {
    if a == [] {
      assert a + b == b;
    } else if b == [] {
      assert a + b == a;
    } else {
      var first := Overwrite(data, off, a);
      var l, r := Overwrite(first, off + |a|, b), Overwrite(data, off, a + b);
      assert |l| == |r|;
      assert forall i :: 0 <= i < |l| ==> l[i] == r[i];
    }
  }

  /** The file once `k` bytes of the source have arrived. */
  function Copied(data: seq<byte>, at: nat, src: seq<byte>, from: nat, k: nat): seq<byte>
    requires from + k <= |src|
  {
    Overwrite(data, at, src[from..from + k])
  }

  lemma CopiedMore(data: seq<byte>, at: nat, src: seq<byte>, from: nat, k: nat, n: nat)
    requires at <= |data| && from + k + n <= |src|
    ensures Overwrite(Copied(data, at, src, from, k), at + k, src[from + k..from + k + n]) ==
      Copied(data, at, src, from, k + n)
    ensures at + k <= |Copied(data, at, src, from, k)|
  {
    var a, b := src[from..from + k], src[from + k..from + k + n];
    OverwriteTwice(data, at, a, b);
    assert a + b == src[from..from + k + n];
  }

  /** A turn of the copy continues what has been copied. */
  lemma TurnContinues(
    e: Entries, e': Entries, name: Path, data: seq<byte>, at: nat, src: seq<byte>, from: nat, k: nat, n: nat)
    requires at <= |data| && from + k + n <= |src|
    requires e' == e[name := File(Copied(data, at, src, from, k))]
    ensures e'[name := File(Overwrite(e'[name].data, at + k, src[from + k..from + k + n]))] ==
      e[name := File(Copied(data, at, src, from, k + n))]
  {
    CopiedMore(data, at, src, from, k, n);
  }

  /** A write through the open handle. */
  method StoreAt(d: Disk, name: Path, off: nat, bytes: seq<byte>)
    requires name in d.entries && d.entries[name].File?
    modifies d
    ensures d.entries == old(d.entries)[name := File(Overwrite(old(d.entries[name].data), off, bytes))]
    ensures OnlyTouched(old(d.entries), old(d.history), d, {name}) && d.faults == old(d.faults)
  {
    d.Store(name, Overwrite(d.entries[name].data, off, bytes));
  }

  const BUFFER_SIZE := 32 * 1024

  datatype ReadErr = NoErr | Eof | ReadFailure

  /** What one read and one write of the copy loop may do: short, failing, or reporting nonsense. */
  datatype Attempt = Attempt(n: int, readErr: ReadErr, written: nat, reported: int, writeFails: bool)

  predicate Possible(a: Attempt, available: nat) {
    a.n <= available && (a.n > 0 ==> a.written <= a.n && (a.reported == a.n && !a.writeFails ==> a.written == a.n))
  }

  /** Some bytes were read and all of them written; the end is reported only where it is. */
  predicate Works(a: Attempt, available: nat, room: nat) {
    && 0 < a.n <= room && a.reported == a.n && !a.writeFails
    && (a.readErr == NoErr || (a.readErr == Eof && a.n == available))
  }

  /** copyExactContext from position `from` of the source to position `at` of the open file `name`. */
  method CopyExact(d: Disk, name: Path, at: nat, src: seq<byte>, from: nat, size: int, ctx: Context)
    returns (err: Error)
    requires name in d.entries && d.entries[name].File? && at <= |d.entries[name].data| && from <= |src|
    modifies d, ctx
    ensures old(ctx.done) ==> ctx.done
    ensures err == Nil ==> 0 <= size && from + size <= |src|
    ensures err == Nil ==>
      d.entries == old(d.entries)[name := File(Copied(old(d.entries[name].data), at, src, from, size))]
    ensures name in d.entries && d.entries[name].File?
    ensures OnlyTouched(old(d.entries), old(d.history), d, {name})
    ensures old(d.faults) <= d.faults
    ensures 0 <= size && from + size <= |src| && d.faults == old(d.faults) && !ctx.done ==> err == Nil
  {
    if size < 0 {
      return Failure;
    }
    ghost var data := d.entries[name].data;
    var remaining, copied := size, 0;
    assert Copied(data, at, src, from, 0) == data;
    assert d.entries == d.entries[name := File(data)];
    while remaining > 0
      invariant 0 <= remaining && copied + remaining == size && from + copied <= |src|
      invariant old(ctx.done) ==> ctx.done
      invariant name in d.entries && d.entries[name].File?
      invariant d.entries == old(d.entries)[name := File(Copied(data, at, src, from, copied))]
      invariant OnlyTouched(old(d.entries), old(d.history), d, {name})
      invariant old(d.faults) <= d.faults
      decreases remaining
    {
      ghost var now, past := d.entries, d.history;
      var turn := CopyTurn(d, name, at + copied, src, from + copied, remaining, ctx);
      TouchedFurther(old(d.entries), old(d.history), now, past, d, {name});
      if turn.ended && turn.err != Nil {
        return turn.err;
      }
      TurnContinues(old(d.entries), now, name, data, at, src, from, copied, turn.n);
      remaining := remaining - turn.n;
      copied := copied + turn.n;
      if turn.ended {
        return Nil;
      }
    }
    return Nil;
  }

  /** How one turn of the copy loop ended: `n` bytes moved, and perhaps the end of the copy with a result. */
  datatype Turn = Turn(n: nat, ended: bool, err: Error)

  method CopyTurn(d: Disk, name: Path, at: nat, src: seq<byte>, from: nat, remaining: nat, ctx: Context)
    returns (t: Turn)
    requires name in d.entries && d.entries[name].File? && from <= |src| && remaining > 0
    modifies d, ctx
    ensures old(ctx.done) ==> ctx.done
    ensures !t.ended ==> t.n > 0
    ensures !t.ended || t.err == Nil ==>
      && t.n <= remaining && from + t.n <= |src|
      && d.entries == old(d.entries)[name := File(Overwrite(old(d.entries[name].data), at, src[from..from + t.n]))]
    ensures t.ended && t.err == Nil ==> t.n == remaining
    ensures name in d.entries && d.entries[name].File?
    ensures OnlyTouched(old(d.entries), old(d.history), d, {name})
    ensures old(d.faults) <= d.faults
    ensures from + remaining <= |src| && d.faults == old(d.faults) && !ctx.done ==> !t.ended || t.err == Nil
  {
    var expired := ctx.Err();
    if expired {
      return Turn(0, true, Failure);
    }
    var room := if remaining < BUFFER_SIZE then remaining else BUFFER_SIZE;
    var attempt := AnyAttempt(d, |src| - from, room);
    var n := attempt.n;
    if n < 0 || n > room {
      return Turn(0, true, Failure);
    }
    if n > 0 {
      StoreAt(d, name, at, src[from..from + attempt.written]);
      var reported, failed := attempt.reported, attempt.writeFails;
      if reported < 0 || n < reported {
        reported := 0;
        failed := true;
      }
      if failed || reported != n {
        return Turn(0, true, Failure);
      }
    } else {
      assert src[from..from + 0] == [];
      assert d.entries == d.entries[name := File(Overwrite(d.entries[name].data, at, []))];
    }
    if attempt.readErr == Eof {
      return Turn(n, true, if remaining == n then Nil else Failure);
    }
    if attempt.readErr == ReadFailure || n == 0 {
      return Turn(n, true, Failure);
    }
    return Turn(n, false, Nil);
  }

  method AnyAttempt(d: Disk, available: nat, room: nat) returns (a: Attempt)
    modifies d`faults
    ensures Possible(a, available) && old(d.faults) <= d.faults
    ensures 0 < room && 0 < available && d.faults == old(d.faults) ==> Works(a, available, room)
  {
    var works := d.Works();
    var one := Attempt(1, NoErr, 1, 1, false);
    assert 0 < room && 0 < available ==> Possible(one, available) && Works(one, available, room);
    assert Possible(Attempt(0, NoErr, 0, 0, false), available);
    a :| Possible(a, available) && (works && 0 < room && 0 < available ==> Works(a, available, room));
  }

  // ---------- Validating what is already there ----------

  /** How many of the bytes asked for there are. */
  function Available(data: seq<byte>, off: nat, n: nat): nat {
    if off <= |data| then Min(n, |data| - off) else 0
  }

  /** ReadAt: all the bytes there are of those asked for, unless it fails. */
  method ReadAt(d: Disk, data: seq<byte>, off: nat, n: nat) returns (got: seq<byte>, err: ReadErr)
    modifies d`faults
    ensures |got| <= Available(data, off, n)
    ensures got == if off <= |data| then data[off..off + |got|] else []
    ensures old(d.faults) <= d.faults
    ensures d.faults == old(d.faults) ==> err != ReadFailure && |got| == Available(data, off, n)
  {
    var works := d.Works();
    var available := Available(data, off, n);
    assert off <= |data| ==> off + available <= |data|;
    var k: nat :| k <= available && (works ==> k == available);
    got := if off <= |data| then data[off..off + k] else [];
    err := if |got| < n then Eof else NoErr;
    if !works {
      err :| true;
    }
  }

  datatype Validation = Matches | Mismatch | Unreadable

  /** validatePrefix. When no read fails, it accepts exactly equal prefixes; it never accepts others. */
  method ValidatePrefix(d: Disk, dst: seq<byte>, src: seq<byte>, startOffset: nat) returns (v: Validation)
    modifies d`faults
    ensures v == Matches ==> SamePrefix(dst, src, startOffset)
    ensures old(d.faults) <= d.faults
    ensures d.faults == old(d.faults) ==> v == if SamePrefix(dst, src, startOffset) then Matches else Mismatch
  {
    var offset := 0;
    while offset < startOffset
      invariant offset <= startOffset && SamePrefix(dst, src, offset)
      invariant old(d.faults) <= d.faults
    {
      var readSize := Min(BUFFER_SIZE, startOffset - offset);
      var got1, err1 := ReadAt(d, dst, offset, readSize);
      if err1 == ReadFailure {
        return Unreadable;
      }
      var got2, err2 := ReadAt(d, src, offset, readSize);
      if err2 == ReadFailure {
        return Unreadable;
      }
      if SamePrefix(dst, src, startOffset) {
        FullReadsAgree(dst, src, startOffset, offset, readSize);
      }
      if |got1| != |got2| || got1 != got2 {
        return Mismatch;
      }
      if |got1| == 0 {
        break;
      }
      assert dst[..offset + |got1|] == dst[..offset] + got1;
      assert src[..offset + |got1|] == src[..offset] + got2;
      offset := offset + |got1|;
    }
    v := if offset != startOffset then Mismatch else Matches;
  }

  predicate SamePrefix(dst: seq<byte>, src: seq<byte>, k: nat) {
    k <= |dst| && k <= |src| && dst[..k] == src[..k]
  }

  lemma FullReadsAgree(dst: seq<byte>, src: seq<byte>, k: nat, offset: nat, n: nat)
    requires SamePrefix(dst, src, k) && offset + n <= k
    ensures Available(dst, offset, n) == n == Available(src, offset, n)
    ensures dst[offset..offset + n] == src[offset..offset + n]
  {
    forall i | offset <= i < offset + n ensures dst[i] == src[i] {
      assert dst[i] == dst[..k][i] && src[i] == src[..k][i];
    }
  }

  datatype Config = Config(force: bool, enableResume: bool, resumeMinSize: int, chunkSize: nat, threadsPerFile: int)

  /** A temporary file worth continuing: a beginning of the source, long enough, and resuming is enabled. */
  predicate Resumable(cfg: Config, e: Entries, temp: Path, src: seq<byte>) {
    && cfg.enableResume && temp in e && e[temp].File?
    && cfg.resumeMinSize <= |e[temp].data| <= |src| && e[temp].data == src[..|e[temp].data|]
  }

  /** Where to resume. */
  function ResumeAt(cfg: Config, e: Entries, temp: Path, src: seq<byte>): (k: nat)
    ensures k <= |src|
  {
    if Resumable(cfg, e, temp, src) then |e[temp].data| else 0
  }

  /** What a temporary file may replace or continue. */
  predicate Writable(e: Entries, temp: Path) {
    temp in e ==> e[temp].File?
  }

  /**
   prepareDownloadFile: what is kept of the temporary file is a beginning of the source, and only if it may be resumed;
   when nothing fails, it is kept exactly then.
   */
  method PrepareDownloadFile(d: Disk, temp: Path, src: seq<byte>, cfg: Config) returns (r: Result<nat>)
    modifies d
    ensures r.Ok? ==> r.value <= |src| && d.entries == old(d.entries)[temp := File(src[..r.value])]
    ensures r.Ok? ==> r.value == 0 || r.value == ResumeAt(cfg, old(d.entries), temp, src)
    ensures Writable(old(d.entries), temp) && d.faults == old(d.faults) ==>
      r == Ok(ResumeAt(cfg, old(d.entries), temp, src))
    ensures !Writable(old(d.entries), temp) ==> r.Failed? && d.entries == old(d.entries)
    ensures old(d.faults) <= d.faults
    ensures OnlyTouched(old(d.entries), old(d.history), d, {temp})
  {
    var info := d.Lstat(temp);
    if info.Unknown? || (info.Found? && !info.node.File?) {
      return Failed;
    }
    assert src[..0] == [];
    if info.Missing? {
      var err := d.Create(temp);
      return if err == Nil then Ok(0) else Failed;
    }
    var startOffset := 0;
    var tempSize := |info.node.data|;
    var truncate := true;
    if cfg.enableResume && tempSize <= |src| && tempSize >= cfg.resumeMinSize {
      startOffset := tempSize;
      truncate := false;
    }
    var isOpen := d.Works();
    if !isOpen {
      return Failed;
    }
    if truncate {
      d.Store(temp, []);
    }
    var same := d.Works();
    if !same {
      return Failed;
    }
    if startOffset > 0 {
      r := KeepOrReset(d, temp, src, startOffset);
      return;
    }
    assert d.entries[temp] == File(src[..0]);
    return Ok(0);
  }

  /** What is there is kept if it begins the source, and emptied otherwise. */
  method KeepOrReset(d: Disk, temp: Path, src: seq<byte>, startOffset: nat) returns (r: Result<nat>)
    requires temp in d.entries && d.entries[temp].File? && |d.entries[temp].data| == startOffset <= |src|
    modifies d
    ensures r.Ok? ==> r.value <= |src| && d.entries == old(d.entries)[temp := File(src[..r.value])]
    ensures r.Ok? && r.value != 0 ==> r.value == startOffset && old(d.entries)[temp].data == src[..startOffset]
    ensures old(d.faults) <= d.faults
    ensures d.faults == old(d.faults) ==>
      r == Ok(if old(d.entries)[temp].data == src[..startOffset] then startOffset else 0)
    ensures OnlyTouched(old(d.entries), old(d.history), d, {temp})
  {
    ghost var data := d.entries[temp].data;
    assert data[..startOffset] == data;
    var v := ValidatePrefix(d, d.entries[temp].data, src, startOffset);
    if v == Unreadable {
      return Failed;
    }
    if v == Matches {
      assert d.entries == d.entries[temp := File(src[..startOffset])];
      return Ok(startOffset);
    }
    var reset := d.Works();
    if !reset {
      return Failed;
    }
    d.Store(temp, []);
    assert src[..0] == [];
    return Ok(0);
  }

  lemma RestCompletes(src: seq<byte>, k: nat)
    requires k <= |src|
    ensures Copied(src[..k], k, src, k, |src| - k) == src
  {
    assert src[k..k + (|src| - k)] == src[k..] && src[..k] + src[k..] == src;
  }

  /** doDownload: the rest of the file, serially or in parallel. */
  method DoDownload(d: Disk, temp: Path, src: seq<byte>, startOffset: nat, cfg: Config, ctx: Context)
    returns (err: Error)
    requires startOffset <= |src| && temp in d.entries && d.entries[temp] == File(src[..startOffset])
    requires cfg.chunkSize > 0
    modifies d, ctx
    ensures old(ctx.done) ==> ctx.done
    ensures err == Nil && !ctx.done ==> d.entries == old(d.entries)[temp := File(src)]
    ensures temp in d.entries && d.entries[temp].File?
    ensures OnlyTouched(old(d.entries), old(d.history), d, {temp})
    ensures old(d.faults) <= d.faults && (d.faults == old(d.faults) && !ctx.done ==> err == Nil)
  {
    var expired := ctx.Err();
    if expired {
      return Failure;
    }
    if |src| - startOffset <= 0 {
      assert src[..startOffset] == src;
      assert d.entries == d.entries[temp := File(src)];
      return Nil;
    }
    if |src| - startOffset < cfg.chunkSize || cfg.threadsPerFile <= 1 {
      var seeks := d.Works();
      if startOffset > 0 && !seeks {
        return Failure;
      }
      err := CopyExact(d, temp, startOffset, src, startOffset, |src| - startOffset, ctx);
      RestCompletes(src, startOffset);
      return;
    }
    var failed, cancelled := Transfer(d, temp, Job(src, startOffset, cfg.chunkSize, cfg.threadsPerFile), ctx.done);
    ctx.done := cancelled;
    return if failed then Failure else Nil;
  }

  // ---------- The whole download ----------

  /** The old destination is never lost, and only the complete new one ever replaces it. */
  predicate DestinationSafe(before: Entries, now: Entries, local: Path, backup: Path, src: seq<byte>) {
    local in before ==>
      || (local in now && now[local] == before[local])
      || (backup in now && now[backup] == before[local])
      || (local in now && now[local] == File(src))
  }

  /** Every state since `past`, and the present one, are safe for the destination. */
  ghost predicate AllSafe(
    before: Entries, past: seq<Entries>, d: Disk, local: Path, backup: Path, src: seq<byte>)
    reads d
  {
    SafeSince(before, past, d.history, d.entries, local, backup, src)
  }

  ghost predicate SafeSince(
    before: Entries, past: seq<Entries>, history: seq<Entries>, now: Entries, local: Path, backup: Path, src: seq<byte>)
  {
    && past <= history
    && (forall i :: |past| <= i < |history| ==> DestinationSafe(before, history[i], local, backup, src))
    && DestinationSafe(before, now, local, backup, src)
  }

  lemma SafeFurther(
    before: Entries, past: seq<Entries>, middle: seq<Entries>, m: Entries, history: seq<Entries>, now: Entries,
    local: Path, backup: Path, src: seq<byte>)
    requires SafeSince(before, past, middle, m, local, backup, src)
    requires SafeSince(before, middle, history, now, local, backup, src)
    ensures SafeSince(before, past, history, now, local, backup, src)
  {
    forall i | |past| <= i < |history| ensures DestinationSafe(before, history[i], local, backup, src) {
      if i < |middle| { assert history[i] == middle[i]; }
    }
  }

  /** Safety only concerns the destination as it was. */
  lemma SafeForSame(
    before: Entries, e: Entries, past: seq<Entries>, history: seq<Entries>, now: Entries, local: Path, backup: Path,
    src: seq<byte>)
    requires local in before ==> local in e && e[local] == before[local]
    requires SafeSince(e, past, history, now, local, backup, src)
    ensures SafeSince(before, past, history, now, local, backup, src)
  {
    forall i | |past| <= i < |history| ensures DestinationSafe(before, history[i], local, backup, src) {
      assert DestinationSafe(e, history[i], local, backup, src);
    }
  }

  lemma TouchedIsSafe(
    before: Entries, past: seq<Entries>, d: Disk, names: set<Path>, local: Path, backup: Path, src: seq<byte>)
    requires OnlyTouched(before, past, d, names) && local !in names
    ensures AllSafe(before, past, d, local, backup, src)
  {
    forall i | |past| <= i < |d.history| ensures DestinationSafe(before, d.history[i], local, backup, src) {
      if local in before {
        assert local in before - names && local in d.history[i] - names;
      }
    }
    if local in before {
      assert local in before - names && local in d.entries - names;
    }
  }

  /** From the first look at the temporary file to its last byte. */
  method WriteTemporary(d: Disk, temp: Path, src: seq<byte>, cfg: Config, ctx: Context) returns (written: bool)
    requires cfg.chunkSize > 0
    modifies d, ctx
    ensures written ==> d.entries == old(d.entries)[temp := File(src)]
    ensures OnlyTouched(old(d.entries), old(d.history), d, {temp})
    ensures old(ctx.done) ==> ctx.done
    ensures old(d.faults) <= d.faults
    ensures Writable(old(d.entries), temp) && d.faults == old(d.faults) && !ctx.done ==> written
  {
    ghost var before, past := d.entries, d.history;
    var expired := ctx.Err();
    if expired {
      return false;
    }
    var prepared := PrepareDownloadFile(d, temp, src, cfg);
    if prepared.Ok? {
      written := CompleteTemporary(d, temp, src, prepared.value, cfg, ctx, before, past);
    } else {
      written := false;
    }
  }

  /** The prepared file gets its mode, the rest of its bytes, and is closed. */
  method CompleteTemporary(
    d: Disk, temp: Path, src: seq<byte>, startOffset: nat, cfg: Config, ctx: Context, ghost before: Entries,
    ghost past: seq<Entries>)
    returns (written: bool)
    requires cfg.chunkSize > 0 && startOffset <= |src| && d.entries == before[temp := File(src[..startOffset])]
    requires OnlyTouched(before, past, d, {temp})
    modifies d, ctx
    ensures written ==> d.entries == before[temp := File(src)]
    ensures OnlyTouched(before, past, d, {temp})
    ensures old(ctx.done) ==> ctx.done
    ensures old(d.faults) <= d.faults && (d.faults == old(d.faults) && !ctx.done ==> written)
  {
    ghost var prepared, middle := d.entries, d.history;
    var statOk := d.Works();
    var expired := ctx.Err();
    var chmodOk := d.Works();
    if !statOk || expired || !chmodOk {
      return false;
    }
    var err := DoDownload(d, temp, src, startOffset, cfg, ctx);
    TouchedFurther(before, past, prepared, middle, d, {temp});
    var closed := d.Works();
    expired := ctx.Err();
    written := err == Nil && closed && !expired;
  }

  datatype Outcome = Skipped | Completed | Refused

  /** What is safe for a replacement by the moved file is safe for the destination. */
  lemma MovedIsSafe(before: Entries, now: Entries, local: Path, temp: Path, final: Path, src: seq<byte>)
    requires temp in before && before[temp] == File(src) && temp != final && local != temp && local != final
    requires Safe(Renamed(before, temp, final), now, final, local, WithSuffix(final, BACKUP_SUFFIX))
    ensures DestinationSafe(before, now, local, WithSuffix(final, BACKUP_SUFFIX), src)
  {
  }

  /** The moved file takes the place of the destination, unless a check fails or the context is done. */
  method PromoteMoved(
    d: Disk, local: Path, temp: Path, final: Path, suffix: string, src: seq<byte>, ctx: Context, ghost before: Entries)
    returns (err: Error)
    requires suffix != "" && final == WithSuffix(local, suffix) && temp != final && local != temp
    requires temp in before && before[temp] == File(src) && d.entries == Renamed(before, temp, final)
    modifies d, ctx
    ensures err == Nil ==> d.entries == (before - {temp, final})[local := File(src)]
    ensures AllSafe(before, old(d.history), d, local, WithSuffix(final, BACKUP_SUFFIX), src)
    ensures old(ctx.done) ==> ctx.done
    ensures old(d.faults) <= d.faults && (d.faults == old(d.faults) && !ctx.done ==> err == Nil)
  {
    SuffixesDiffer(local, suffix, BACKUP_SUFFIX);
    SuffixesDiffer(final, BACKUP_SUFFIX, BACKUP_SUFFIX);
    ghost var moved, middle, backup := d.entries, d.history, WithSuffix(final, BACKUP_SUFFIX);
    StagesAreSafe(moved, moved, final, local, backup);
    MovedIsSafe(before, moved, local, temp, final, src);
    var checksPass := d.Works();
    var expired := ctx.Err();
    if !checksPass || expired {
      return Failure;
    }
    err := ReplaceLocalEntry(d, final, local, suffix, false);
    PromotedIsSafe(before, middle, d, local, temp, final, src, err);
    MovedTwice(before, temp, final, local);
  }

  lemma MovedTwice(before: Entries, temp: Path, final: Path, local: Path)
    requires temp in before && temp != final && local != temp && local != final
    ensures Renamed(Renamed(before, temp, final), final, local) == (before - {temp, final})[local := before[temp]]
  {
  }

  lemma PromotedIsSafe(
    before: Entries, past: seq<Entries>, d: Disk, local: Path, temp: Path, final: Path, src: seq<byte>, err: Error)
    requires temp in before && before[temp] == File(src) && temp != final && local != temp && local != final
    requires final != WithSuffix(final, BACKUP_SUFFIX) && local != WithSuffix(final, BACKUP_SUFFIX)
    requires Replaced(Renamed(before, temp, final), past, d, final, local, WithSuffix(final, BACKUP_SUFFIX), err)
    ensures AllSafe(before, past, d, local, WithSuffix(final, BACKUP_SUFFIX), src)
  {
    var moved, backup := Renamed(before, temp, final), WithSuffix(final, BACKUP_SUFFIX);
    ReplacementIsSafe(moved, past, d, final, local, backup, err);
    StagesAreSafe(moved, d.entries, final, local, backup);
    forall i | |past| <= i < |d.history| ensures DestinationSafe(before, d.history[i], local, backup, src) {
      MovedIsSafe(before, d.history[i], local, temp, final, src);
    }
    MovedIsSafe(before, d.entries, local, temp, final, src);
  }

  lemma MovedIsSafeToo(before: Entries, now: Entries, local: Path, temp: Path, final: Path, src: seq<byte>)
    requires temp in before && temp != final && local != temp && local != final && now == Renamed(before, temp, final)
    ensures DestinationSafe(before, now, local, WithSuffix(final, BACKUP_SUFFIX), src)
  {
  }

  lemma CleanupIsSafe(before: Entries, now: Entries, final: Path, local: Path, backup: Path, src: seq<byte>)
    requires final != local && final != backup && DestinationSafe(before, now, local, backup, src)
    ensures DestinationSafe(before, now - {final}, local, backup, src)
  {
  }

  /** The temporary file moves to a name nobody else knows, and is promoted from there. */
  method Finalize(d: Disk, local: Path, temp: Path, final: Path, suffix: string, src: seq<byte>, ctx: Context)
    returns (r: Outcome)
    requires temp in d.entries && d.entries[temp] == File(src)
    requires suffix != "" && final == WithSuffix(local, suffix) && temp != final && local != temp
    modifies d, ctx
    ensures r != Skipped
    ensures r == Completed ==> d.entries == (old(d.entries) - {temp, final})[local := File(src)]
    ensures AllSafe(old(d.entries), old(d.history), d, local, WithSuffix(final, BACKUP_SUFFIX), src)
    ensures old(ctx.done) ==> ctx.done
    ensures old(d.faults) <= d.faults && (d.faults == old(d.faults) && !ctx.done ==> r == Completed)
  {
    ghost var before, past := d.entries, d.history;
    SuffixesDiffer(local, suffix, BACKUP_SUFFIX);
    SuffixesDiffer(final, BACKUP_SUFFIX, BACKUP_SUFFIX);
    var err := d.Rename(temp, final);
    if err != Nil {
      return Refused;
    }
    ghost var backup := WithSuffix(final, BACKUP_SUFFIX);
    ghost var m1, h1 := d.entries, d.history;
    MovedIsSafeToo(before, m1, local, temp, final, src);
    err := PromoteMoved(d, local, temp, final, suffix, src, ctx, before);
    ghost var m2, h2 := d.entries, d.history;
    SafeFurther(before, past, h1, m1, h2, m2, local, backup, src);
    var cleanupErr := RemoveFinal(d, final);
    CleanupIsSafe(before, m2, final, local, backup, src);
    SafeFurther(before, past, h2, m2, d.history, d.entries, local, backup, src);
    var closed := d.Works();
    r := if err == Nil && cleanupErr == Nil && closed then Completed else Refused;
  }

  /** The deferred removal of the final temporary name; nothing is left to remove after a promotion. */
  method RemoveFinal(d: Disk, final: Path) returns (err: Error)
    modifies d
    ensures d.entries == old(d.entries) || d.entries == old(d.entries) - {final}
    ensures final !in old(d.entries) ==> d.entries == old(d.entries)
    ensures |old(d.history)| <= |d.history| && d.history[..|old(d.history)|] == old(d.history)
    ensures forall i :: |old(d.history)| <= i < |d.history| ==>
      d.history[i] == old(d.entries) || d.history[i] == old(d.entries) - {final}
    ensures old(d.faults) <= d.faults && (d.faults == old(d.faults) ==> err == Nil)
  {
    err := d.Remove(final);
    if err == NotExists {
      return Nil;
    }
    if err != Nil {
      var retryErr := d.Remove(final);
      if retryErr == Nil || retryErr == NotExists {
        return Nil;
      }
    }
  }

  // ---------- The whole download ----------

  function TempName(local: Path): Path {
    WithSuffix(local, TEMP_SUFFIX)
  }

  function FinalName(local: Path, random: string): Path {
    WithSuffix(TempName(local), "." + random)
  }

  /** An entry of the size of the source and, as `sameTime` says, of its age; a link shows what it leads to. */
  predicate UpToDate(e: Entries, name: Path, src: seq<byte>, sameTime: bool) {
    sameTime && name in e && (e[name].File? ==> |e[name].data| == |src|)
  }

  /** shouldSkipDownload, shouldSkipUpload. */
  method ShouldSkip(d: Disk, name: Path, src: seq<byte>, sameTime: bool) returns (r: Result<bool>)
    modifies d`attempts, d`faults
    ensures old(d.faults) <= d.faults && (d.faults == old(d.faults) ==> r.Ok?)
    ensures r.Ok? && r.value ==> UpToDate(d.entries, name, src, sameTime)
    ensures r.Ok? && !r.value && name in d.entries && d.entries[name].File? ==>
      !UpToDate(d.entries, name, src, sameTime)
  {
    var info := d.Lstat(name);
    if info.Missing? {
      return Ok(false);
    }
    if info.Unknown? {
      return Failed;
    }
    var sameSize: bool := *;
    if info.node.File? {
      sameSize := |info.node.data| == |src|;
    } else {
      var answers := d.Works();
      if !answers {
        return Failed;
      }
    }
    return Ok(sameSize && sameTime);
  }

  /**
   downloadFile. `size` is the size the caller expects, `random` the random part of the final temporary name, `sameTime`
   whether the destination is as old as the source. The remote source does not change while it is read. When nothing
   fails and the context holds out, it is complete, unless it may be skipped.
   */
  method DownloadFile(
    d: Disk, local: Path, src: seq<byte>, size: int, sameTime: bool, random: string, cfg: Config, ctx: Context)
    returns (r: Outcome)
    requires cfg.chunkSize > 0
    modifies d, ctx
    ensures r == Skipped ==>
      !cfg.force && UpToDate(old(d.entries), local, src, sameTime) && d.entries == old(d.entries)
    ensures r != Refused ==> |src| == size
    ensures r == Completed ==>
      d.entries == (old(d.entries) - {TempName(local), FinalName(local, random)})[local := File(src)]
    ensures AllSafe(old(d.entries), old(d.history), d, local, WithSuffix(FinalName(local, random), BACKUP_SUFFIX), src)
    ensures |src| == size && Writable(old(d.entries), TempName(local)) && d.faults == old(d.faults) && !ctx.done ==>
      r == Completed || (r == Skipped && !cfg.force && UpToDate(old(d.entries), local, src, sameTime))
    ensures r == Completed && !cfg.force && local in old(d.entries) && old(d.entries)[local].File? ==>
      !UpToDate(old(d.entries), local, src, sameTime)
  {
    ghost var before, past := d.entries, d.history;
    var temp := TempName(local);
    var final := FinalName(local, random);
    SuffixesDiffer(local, TEMP_SUFFIX, "." + random);
    SuffixesDiffer(temp, "." + random, BACKUP_SUFFIX);
    SuffixesDiffer(local, TEMP_SUFFIX + ("." + random), BACKUP_SUFFIX);
    var expired := ctx.Err();
    var isOpen := d.Works();
    if expired || !isOpen || |src| != size {
      return Refused;
    }
    if !cfg.force {
      expired := ctx.Err();
      if expired {
        return Refused;
      }
      var skip := ShouldSkip(d, local, src, sameTime);
      if skip.Failed? {
        return Refused;
      }
      if skip.value {
        var closed := d.Works();
        return if closed then Skipped else Refused;
      }
    }
    r := Fetch(d, local, temp, final, TEMP_SUFFIX + ("." + random), src, cfg, ctx);
  }

  /** The download itself, once it is known to be wanted. */
  method Fetch(
    d: Disk, local: Path, temp: Path, final: Path, suffix: string, src: seq<byte>, cfg: Config, ctx: Context)
    returns (r: Outcome)
    requires cfg.chunkSize > 0 && suffix != "" && final == WithSuffix(local, suffix) && temp != final && local != temp
    modifies d, ctx
    ensures r != Skipped
    ensures r == Completed ==> d.entries == (old(d.entries) - {temp, final})[local := File(src)]
    ensures AllSafe(old(d.entries), old(d.history), d, local, WithSuffix(final, BACKUP_SUFFIX), src)
    ensures old(ctx.done) ==> ctx.done
    ensures old(d.faults) <= d.faults
    ensures Writable(old(d.entries), temp) && d.faults == old(d.faults) && !ctx.done ==> r == Completed
  {
    ghost var before, past, backup := d.entries, d.history, WithSuffix(final, BACKUP_SUFFIX);
    var written := WriteTemporary(d, temp, src, cfg, ctx);
    TouchedIsSafe(before, past, d, {temp}, local, backup, src);
    if !written {
      return Refused;
    }
    ghost var complete, middle := d.entries, d.history;
    r := Finalize(d, local, temp, final, suffix, src, ctx);
    SafeForSame(before, complete, middle, d.history, d.entries, local, backup, src);
    SafeFurther(before, past, middle, complete, d.history, d.entries, local, backup, src);
    assert (complete - {temp, final})[local := File(src)] == (before - {temp, final})[local := File(src)];
  }
}
