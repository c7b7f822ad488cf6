/**
 The chunked copy: workers read and write disjoint chunks in any order, any of them may fail or write short, and the
 surrounding context may be cancelled at any moment.
 */
module ParallelTransfer {
  import opened Prelude
  import opened FileStore

  // ---------- Bytes at an offset ----------

  function Zeros(n: nat): seq<byte> {
    seq(n, i => 0)
  }

  /** A file's content after a write at `off`; a gap before it reads as zeros. */
  function Overwrite(data: seq<byte>, off: nat, bytes: seq<byte>): (r: seq<byte>)
    ensures bytes != [] ==> |r| == if |data| >= off + |bytes| then |data| else off + |bytes|
  {
    if bytes == [] then data
    else
      var base := if |data| < off then data + Zeros(off - |data|) else data;
      base[..off] + bytes + if |base| > off + |bytes| then base[off + |bytes|..] else []
  }

  predicate Agrees(data: seq<byte>, src: seq<byte>, lo: nat, hi: nat) {
    lo <= hi <= |data| && hi <= |src| && data[lo..hi] == src[lo..hi]
  }

  /** Writing bytes of the source where they belong never spoils what is already right. */
  lemma OverwriteKeeps(data: seq<byte>, src: seq<byte>, off: nat, end: nat, lo: nat, hi: nat)
    requires off <= end <= |src| && Agrees(data, src, lo, hi)
    ensures Agrees(Overwrite(data, off, src[off..end]), src, lo, hi)
  {
    var bytes := src[off..end];
    var r := Overwrite(data, off, bytes);
    if bytes != [] {
      forall i | lo <= i < hi ensures r[i] == src[i] {
        assert data[i] == data[lo..hi][i - lo] == src[lo..hi][i - lo];
      }
    }
  }

  lemma OverwriteWrites(data: seq<byte>, src: seq<byte>, off: nat, end: nat)
    requires off < end <= |src|
    ensures Agrees(Overwrite(data, off, src[off..end]), src, off, end)
  {
  }

  // ---------- The transition system ----------

  datatype Phase = Spawned | Started | HasRead | Done | Lost

  datatype Chunk = Chunk(off: nat, end: nat, phase: Phase)

  /** `stopped` says that the spawning loop broke off; `failed` that a worker returned an error. */
  datatype Sys = Sys(dst: seq<byte>, next: nat, work: seq<Chunk>, stopped: bool, failed: bool, cancelled: bool)

  datatype Job = Job(src: seq<byte>, start: nat, chunkSize: nat, threads: nat)

  datatype Act =
    | Cancel
    | Spawn
    | Break
    | GiveUp(k: nat)            // the worker finds the context done, or its read fails
    | Begin(k: nat)
    | Read(k: nat)
    | Write(k: nat)
    | WriteShort(k: nat, n: nat)  // the write fails after n bytes

  predicate Active(c: Chunk) {
    c.phase.Spawned? || c.phase.Started? || c.phase.HasRead?
  }

  function Running(work: seq<Chunk>): nat {
    if work == [] then 0 else Running(work[..|work| - 1]) + if Active(work[|work| - 1]) then 1 else 0
  }

  /** The group's context is done as soon as the outer one is, or a worker has failed. */
  predicate GroupDone(s: Sys) {
    s.failed || s.cancelled
  }

  predicate Enabled(j: Job, s: Sys, a: Act) {
    match a
    case Cancel => !s.cancelled
    case Spawn => !s.stopped && s.next < |j.src| && !GroupDone(s) && Running(s.work) < j.threads
    case Break => !s.stopped && s.next < |j.src| && GroupDone(s)
    case GiveUp(k) => k < |s.work| && ((s.work[k].phase.Spawned? && GroupDone(s)) || s.work[k].phase.Started?)
    case Begin(k) => k < |s.work| && s.work[k].phase.Spawned? && !GroupDone(s)
    case Read(k) => k < |s.work| && s.work[k].phase.Started?
    case Write(k) =>
      k < |s.work| && s.work[k].phase.HasRead? && s.work[k].end <= |j.src| && s.work[k].off <= s.work[k].end
    case WriteShort(k, n) =>
      k < |s.work| && s.work[k].phase.HasRead? && s.work[k].off + n <= s.work[k].end <= |j.src|
  }

  function Marked(s: Sys, k: nat, phase: Phase): Sys
    requires k < |s.work|
  {
    s.(work := s.work[k := s.work[k].(phase := phase)])
  }

  function Written(j: Job, s: Sys, c: Chunk, n: nat): Sys
    requires c.off + n <= |j.src|
  {
    s.(dst := Overwrite(s.dst, c.off, j.src[c.off..c.off + n]))
  }

  function ChunkEnd(j: Job, off: nat): nat {
    if off + j.chunkSize > |j.src| then |j.src| else off + j.chunkSize
  }

  function After(j: Job, s: Sys, a: Act): Sys
    requires Enabled(j, s, a)
  {
    match a
    case Cancel => s.(cancelled := true)
    case Spawn => s.(work := s.work + [Chunk(s.next, ChunkEnd(j, s.next), Spawned)], next := s.next + j.chunkSize)
    case Break => s.(stopped := true)
    case GiveUp(k) => Marked(s, k, Lost).(failed := true)
    case Begin(k) => Marked(s, k, Started)
    case Read(k) => Marked(s, k, HasRead)
    case Write(k) =>
      var c := s.work[k];
      Marked(Written(j, s, c, c.end - c.off), k, Done)
    case WriteShort(k, n) =>
      var c := s.work[k];
      Marked(Written(j, s, c, n), k, Lost).(failed := true)
  }

  /** All workers have returned and no more will be spawned. */
  predicate Finished(j: Job, s: Sys) {
    (s.stopped || s.next >= |j.src|) && forall k :: 0 <= k < |s.work| ==> !Active(s.work[k])
  }

  predicate Sensible(j: Job) {
    j.chunkSize > 0 && j.threads > 0 && j.start <= |j.src|
  }

  /** The destination holds a valid prefix of the source and nothing more. */
  predicate Init(j: Job, s: Sys)
    requires Sensible(j)
  {
    && s == Sys(s.dst, j.start, [], false, false, s.cancelled)
    && s.dst == j.src[..j.start]
  }

  predicate Run(j: Job, states: seq<Sys>, acts: seq<Act>)
    requires Sensible(j)
  {
    && |states| == |acts| + 1
    && Init(j, states[0])
    && forall i {:trigger acts[i]} :: 0 <= i < |acts| ==>
         Enabled(j, states[i], acts[i]) && states[i + 1] == After(j, states[i], acts[i])
  }

  // ---------- Invariant ----------

  /** Chunks follow one another without gaps from the start, and end where the next one would begin. */
  predicate Linked(j: Job, work: seq<Chunk>, next: nat, k: nat)
    requires k < |work|
  {
    && work[k].off < work[k].end <= |j.src|
    && work[k].off == (if k == 0 then j.start else work[k - 1].end)
    && (k == |work| - 1 ==> work[k].end == if next < |j.src| then next else |j.src|)
  }

  predicate Contiguous(j: Job, s: Sys) {
    && (forall k :: 0 <= k < |s.work| ==> Linked(j, s.work, s.next, k))
    && (s.work == [] ==> s.next == j.start)
  }

  predicate ChunkOk(j: Job, s: Sys, c: Chunk) {
    && (c.phase.Done? ==> Agrees(s.dst, j.src, c.off, c.end))
    && (c.phase.Lost? ==> s.failed)
  }

  predicate Inv(j: Job, s: Sys) {
    && Contiguous(j, s)
    && |s.dst| <= |j.src| && Agrees(s.dst, j.src, 0, j.start)
    && (s.stopped ==> GroupDone(s))
    && forall k :: 0 <= k < |s.work| ==> ChunkOk(j, s, s.work[k])
  }

  lemma WriteKeepsChunk(j: Job, s: Sys, c: Chunk, n: nat, other: Chunk)
    requires c.off + n <= |j.src| && ChunkOk(j, s, other)
    ensures ChunkOk(j, Written(j, s, c, n), other)
  {
    if other.phase.Done? {
      OverwriteKeeps(s.dst, j.src, c.off, c.off + n, other.off, other.end);
    }
  }

  /** Writing part of a chunk where it belongs. */
  lemma WriteKeeps(j: Job, s: Sys, k: nat, n: nat)
    requires Inv(j, s) && k < |s.work|
    requires s.work[k].off + n <= s.work[k].end <= |j.src|
    ensures Inv(j, Written(j, s, s.work[k], n))
  {
    var c := s.work[k];
    OverwriteKeeps(s.dst, j.src, c.off, c.off + n, 0, j.start);
    WriteKeepsChunks(j, s, c, n);
    WriteFits(j, s, c, n);
  }

  lemma WriteFits(j: Job, s: Sys, c: Chunk, n: nat)
    requires c.off + n <= |j.src| && |s.dst| <= |j.src|
    ensures var s' := Written(j, s, c, n); |s'.dst| <= |j.src| && s' == s.(dst := s'.dst)
  {
  }

  lemma WriteKeepsChunks(j: Job, s: Sys, c: Chunk, n: nat)
    requires c.off + n <= |j.src| && forall h :: 0 <= h < |s.work| ==> ChunkOk(j, s, s.work[h])
    ensures forall h :: 0 <= h < |s.work| ==> ChunkOk(j, Written(j, s, c, n), s.work[h])
  {
    forall h | 0 <= h < |s.work| ensures ChunkOk(j, Written(j, s, c, n), s.work[h]) {
      WriteKeepsChunk(j, s, c, n, s.work[h]);
    }
  }

  lemma MarkKeeps(j: Job, s: Sys, k: nat, phase: Phase, failed: bool)
    requires Inv(j, s) && k < |s.work|
    requires phase.Lost? ==> failed
    requires phase.Done? ==> Agrees(s.dst, j.src, s.work[k].off, s.work[k].end)
    requires s.failed ==> failed
    ensures Inv(j, Marked(s, k, phase).(failed := failed))
  {
    var s' := Marked(s, k, phase).(failed := failed);
    forall h | 0 <= h < |s'.work| ensures Linked(j, s'.work, s'.next, h) && ChunkOk(j, s', s'.work[h]) {
      assert Linked(j, s.work, s.next, h) && ChunkOk(j, s, s.work[h]);
    }
  }

  lemma SpawnKeeps(j: Job, s: Sys)
    requires Sensible(j) && Inv(j, s) && Enabled(j, s, Spawn)
    ensures Inv(j, After(j, s, Spawn))
  {
    var s' := After(j, s, Spawn);
    forall k | 0 <= k < |s'.work| ensures Linked(j, s'.work, s'.next, k) && ChunkOk(j, s', s'.work[k]) {
      if k < |s.work| { assert Linked(j, s.work, s.next, k) && ChunkOk(j, s, s.work[k]); }
      if k == |s.work| > 0 { assert Linked(j, s.work, s.next, k - 1); }
    }
  }

  lemma WrittenAgrees(j: Job, s: Sys, c: Chunk)
    requires c.off < c.end <= |j.src|
    ensures Agrees(Written(j, s, c, c.end - c.off).dst, j.src, c.off, c.end)
  {
    assert c.off + (c.end - c.off) == c.end;
    OverwriteWrites(s.dst, j.src, c.off, c.end);
  }

  lemma WriteAllKeeps(j: Job, s: Sys, k: nat)
    requires Sensible(j) && Inv(j, s) && Enabled(j, s, Write(k))
    ensures Inv(j, After(j, s, Write(k)))
  {
    var c := s.work[k];
    assert Linked(j, s.work, s.next, k);
    var s' := Written(j, s, c, c.end - c.off);
    WriteKeeps(j, s, k, c.end - c.off);
    WrittenAgrees(j, s, c);
    assert s'.work == s.work && After(j, s, Write(k)) == Marked(s', k, Done).(failed := s'.failed);
    MarkKeeps(j, s', k, Done, s'.failed);
  }

  lemma StepKeeps(j: Job, s: Sys, a: Act)
    requires Sensible(j) && Inv(j, s) && Enabled(j, s, a)
    ensures Inv(j, After(j, s, a))
  {
    match a
    case Write(k) => WriteAllKeeps(j, s, k);
    case WriteShort(k, n) =>
      WriteKeeps(j, s, k, n);
      MarkKeeps(j, Written(j, s, s.work[k], n), k, Lost, true);
    case Spawn => SpawnKeeps(j, s);
    case GiveUp(k) => MarkKeeps(j, s, k, Lost, true);
    case Begin(k) => MarkKeeps(j, s, k, Started, s.failed);
    case Read(k) => MarkKeeps(j, s, k, HasRead, s.failed);
    case _ =>
      forall k | 0 <= k < |s.work| ensures ChunkOk(j, After(j, s, a), s.work[k]) {
        assert ChunkOk(j, s, s.work[k]);
      }
  }

  lemma {:induction false} InvAt(j: Job, states: seq<Sys>, acts: seq<Act>, i: nat)
    requires Sensible(j) && Run(j, states, acts) && i < |states|
    ensures Inv(j, states[i])
  {
    if i > 0 {
      InvAt(j, states, acts, i - 1);
      StepKeeps(j, states[i - 1], acts[i - 1]);
    }
  }

  // ---------- How many workers, and for how long ----------

  lemma {:induction false} RunningUpdate(work: seq<Chunk>, k: nat, c: Chunk)
    requires k < |work|
    ensures Running(work[k := c]) ==
      Running(work) - (if Active(work[k]) then 1 else 0) + (if Active(c) then 1 else 0)
    decreases |work|
  {
    var n := |work| - 1;
    if k == n {
      assert work[k := c][..n] == work[..n];
    } else {
      assert work[k := c][..n] == work[..n][k := c];
      RunningUpdate(work[..n], k, c);
    }
  }

  lemma RunningStep(j: Job, s: Sys, a: Act)
    requires Enabled(j, s, a) && Running(s.work) <= j.threads
    ensures Running(After(j, s, a).work) <= j.threads
  {
    match a
    case Spawn =>
      var c := Chunk(s.next, ChunkEnd(j, s.next), Spawned);
      assert (s.work + [c])[..|s.work|] == s.work;
    case GiveUp(k) => RunningUpdate(s.work, k, s.work[k].(phase := Lost));
    case Begin(k) => RunningUpdate(s.work, k, s.work[k].(phase := Started));
    case Read(k) => RunningUpdate(s.work, k, s.work[k].(phase := HasRead));
    case Write(k) => RunningUpdate(s.work, k, s.work[k].(phase := Done));
    case WriteShort(k, _) => RunningUpdate(s.work, k, s.work[k].(phase := Lost));
    case _ =>
  }

  /** At no moment do more workers run than there are threads. */
  lemma {:induction false} NeverMoreThanThreads(j: Job, states: seq<Sys>, acts: seq<Act>, i: nat)
    requires Sensible(j) && Run(j, states, acts) && i < |states|
    ensures Running(states[i].work) <= j.threads
  {
    if i > 0 {
      NeverMoreThanThreads(j, states, acts, i - 1);
      RunningStep(j, states[i - 1], acts[i - 1]);
    }
  }

  /** Once a worker has failed or the copy was cancelled, no worker is started and none begins to read. */
  lemma {:induction false} NothingBeginsAfterFailure(j: Job, states: seq<Sys>, acts: seq<Act>, i: nat, k: nat)
    requires Sensible(j) && Run(j, states, acts) && i <= k < |states|
    requires states[i].failed || states[i].cancelled
    ensures (states[k].failed || states[k].cancelled) && (k < |acts| ==> !acts[k].Spawn? && !acts[k].Begin?)
    decreases k
  {
    if i < k {
      NothingBeginsAfterFailure(j, states, acts, i, k - 1);
      FailureStays(j, states[k - 1], acts[k - 1]);
    }
  }

  lemma FailureStays(j: Job, s: Sys, a: Act)
    requires Enabled(j, s, a) && (s.failed || s.cancelled)
    ensures After(j, s, a).failed || After(j, s, a).cancelled
  {
  }

  // ---------- What a finished copy guarantees ----------

  /** Chunks that are all written cover everything from the start to the last of them. */
  lemma {:induction false} DoneChunksCover(j: Job, s: Sys, n: nat)
    requires Sensible(j) && Inv(j, s) && n <= |s.work|
    requires forall k :: 0 <= k < n ==> s.work[k].phase.Done?
    ensures Agrees(s.dst, j.src, 0, if n == 0 then j.start else s.work[n - 1].end)
  {
    if n > 0 {
      DoneChunksCover(j, s, n - 1);
      var c := s.work[n - 1];
      assert Linked(j, s.work, s.next, n - 1);
      assert ChunkOk(j, s, c);
      assert s.dst[..c.end] == s.dst[..c.off] + s.dst[c.off..c.end];
      assert j.src[..c.end] == j.src[..c.off] + j.src[c.off..c.end];
    }
  }

  lemma FinishedIsComplete(j: Job, s: Sys)
    requires Sensible(j) && Inv(j, s) && Finished(j, s) && !s.failed && !s.cancelled
    ensures s.dst == j.src
  {
    forall k | 0 <= k < |s.work| ensures s.work[k].phase.Done? {
      assert ChunkOk(j, s, s.work[k]);
    }
    DoneChunksCover(j, s, |s.work|);
    if s.work != [] { assert Linked(j, s.work, s.next, |s.work| - 1); }
    assert s.dst == s.dst[0..|j.src|] && j.src == j.src[0..|j.src|];
  }

  /** For every schedule: no error and no cancellation mean that the destination is exactly the source. */
  lemma CompleteUnlessCancelled(j: Job, states: seq<Sys>, acts: seq<Act>)
    requires Sensible(j) && Run(j, states, acts)
    requires var s := states[|acts|]; Finished(j, s) && !s.failed && !s.cancelled
    ensures states[|acts|].dst == j.src
  {
    InvAt(j, states, acts, |acts|);
    FinishedIsComplete(j, states[|acts|]);
  }

  /** The copy alone may report success with chunks missing: cancelled before the first chunk, no worker ever fails. */
  lemma CancelledCopyMaySucceedIncomplete(j: Job) returns (states: seq<Sys>, acts: seq<Act>)
    requires Sensible(j) && j.start < |j.src|
    ensures Run(j, states, acts)
    ensures var s := states[|acts|]; Finished(j, s) && !s.failed && s.cancelled && s.dst != j.src
  {
    var s0 := Sys(j.src[..j.start], j.start, [], false, false, false);
    var s1 := s0.(cancelled := true);
    var s2 := s1.(stopped := true);
    states, acts := [s0, s1, s2], [Cancel, Break];
  }

  // ---------- Running a copy ----------

  function Weight(c: Chunk): nat {
    match c.phase
    case Spawned => 3
    case Started => 2
    case HasRead => 1
    case _ => 0
  }

  function TotalWeight(work: seq<Chunk>): nat {
    if work == [] then 0 else TotalWeight(work[..|work| - 1]) + Weight(work[|work| - 1])
  }

  /** What is left to do; every step lowers it. */
  function Measure(j: Job, s: Sys): nat {
    (if s.cancelled then 0 else 1) + (if s.stopped then 0 else 1)
    + (if s.next >= |j.src| then 0 else 4 * (|j.src| - s.next)) + TotalWeight(s.work)
  }

  lemma {:induction false} WeightUpdate(work: seq<Chunk>, k: nat, c: Chunk)
    requires k < |work|
    ensures TotalWeight(work[k := c]) == TotalWeight(work) - Weight(work[k]) + Weight(c)
    decreases |work|
  {
    var n := |work| - 1;
    if k == n {
      assert work[k := c][..n] == work[..n];
    } else {
      assert work[k := c][..n] == work[..n][k := c];
      WeightUpdate(work[..n], k, c);
    }
  }

  lemma StepProgresses(j: Job, s: Sys, a: Act)
    requires Sensible(j) && Inv(j, s) && Enabled(j, s, a)
    ensures Measure(j, After(j, s, a)) < Measure(j, s)
  {
    match a
    case Cancel =>
    case Break =>
    case Spawn =>
      var c := Chunk(s.next, ChunkEnd(j, s.next), Spawned);
      assert (s.work + [c])[..|s.work|] == s.work;
    case GiveUp(k) => WeightUpdate(s.work, k, s.work[k].(phase := Lost));
    case Begin(k) => WeightUpdate(s.work, k, s.work[k].(phase := Started));
    case Read(k) => WeightUpdate(s.work, k, s.work[k].(phase := HasRead));
    case Write(k) => WeightUpdate(s.work, k, s.work[k].(phase := Done));
    case WriteShort(k, _) => WeightUpdate(s.work, k, s.work[k].(phase := Lost));
  }

  lemma {:induction false} IdleRunsNothing(work: seq<Chunk>)
    requires forall k :: 0 <= k < |work| ==> !Active(work[k])
    ensures Running(work) == 0
  {
    if work != [] { IdleRunsNothing(work[..|work| - 1]); }
  }

  /** A step by which something goes wrong, rather than one that follows from it. */
  predicate Fails(s: Sys, a: Act) {
    a.Cancel? || a.WriteShort? || (a.GiveUp? && !GroupDone(s))
  }

  /** A copy that is not finished can always go on, and without anything going wrong. */
  lemma NeverStuck(j: Job, s: Sys) returns (a: Act)
    requires Sensible(j) && Inv(j, s) && !Finished(j, s)
    ensures Enabled(j, s, a) && !Fails(s, a)
  {
    if k :| 0 <= k < |s.work| && Active(s.work[k]) {
      match s.work[k].phase {
        case Spawned => a := if GroupDone(s) then GiveUp(k) else Begin(k);
        case Started => a := Read(k);
        case HasRead =>
          assert Linked(j, s.work, s.next, k);
          a := Write(k);
      }
    } else {
      IdleRunsNothing(s.work);
      a := if GroupDone(s) then Break else Spawn;
    }
  }

  lemma NothingGoesWrong(j: Job, s: Sys, a: Act)
    requires Enabled(j, s, a) && !Fails(s, a) && !GroupDone(s)
    ensures !GroupDone(After(j, s, a))
  {
    match a
    case Write(k) =>
    case _ =>
  }

  /** The scheduler lets some worker take any step it can. */
  method OneStep(d: Disk, name: Path, j: Job, s: Sys) returns (s': Sys)
    requires Sensible(j) && Inv(j, s) && !Finished(j, s) && name in d.entries && d.entries[name].File?
    modifies d
    ensures Inv(j, s') && Measure(j, s') < Measure(j, s) && (s.cancelled ==> s'.cancelled)
    ensures d.entries == old(d.entries)[name := File(s'.dst)] && d.history == old(d.history) + [d.entries]
    ensures old(d.faults) <= d.faults && (d.faults == old(d.faults) && !GroupDone(s) ==> !GroupDone(s'))
  {
    ghost var some := NeverStuck(j, s);
    var works := d.Works();
    var a :| Enabled(j, s, a) && (works ==> !Fails(s, a));
    StepKeeps(j, s, a);
    StepProgresses(j, s, a);
    if works && !GroupDone(s) { NothingGoesWrong(j, s, a); }
    s' := After(j, s, a);
    d.Store(name, s'.dst);
  }

  /** parallelTransfer, scheduled in any way: each turn performs some enabled step. */
  method Transfer(d: Disk, name: Path, j: Job, alreadyCancelled: bool) returns (failed: bool, cancelled: bool)
    requires Sensible(j) && name in d.entries && d.entries[name] == File(j.src[..j.start])
    modifies d
    ensures !failed && !cancelled ==> d.entries == old(d.entries)[name := File(j.src)]
    ensures exists data :: d.entries == old(d.entries)[name := File(data)]
    ensures alreadyCancelled ==> cancelled
    ensures old(d.faults) <= d.faults && (d.faults == old(d.faults) && !alreadyCancelled ==> !failed && !cancelled)
    ensures |old(d.history)| <= |d.history| && d.history[..|old(d.history)|] == old(d.history)
    ensures forall i :: |old(d.history)| <= i < |d.history| ==> d.history[i] - {name} == old(d.entries) - {name}
  {
    var s := Sys(j.src[..j.start], j.start, [], false, false, alreadyCancelled);
    assert d.entries == d.entries[name := File(s.dst)];
    while !Finished(j, s)
      invariant Inv(j, s)
      invariant name in d.entries && d.entries == old(d.entries)[name := File(s.dst)]
      invariant alreadyCancelled ==> s.cancelled
      invariant old(d.faults) <= d.faults && (d.faults == old(d.faults) && !alreadyCancelled ==> !GroupDone(s))
      invariant |old(d.history)| <= |d.history| && d.history[..|old(d.history)|] == old(d.history)
      invariant forall i :: |old(d.history)| <= i < |d.history| ==> d.history[i] - {name} == old(d.entries) - {name}
      decreases Measure(j, s)
    {
      s := OneStep(d, name, j, s);
    }
    if !s.failed && !s.cancelled {
      FinishedIsComplete(j, s);
    }
    return s.failed, s.cancelled;
  }
}
