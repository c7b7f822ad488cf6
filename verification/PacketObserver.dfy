/**
 The streaming packet observer: fixed buffers filled in place from chunks of any size, proved to report exactly
 the events of the whole packets of the stream.
 */
module PacketObserver {
  import opened Prelude
  import opened PacketFrames

  /** The events of a stream given in any number of pieces, and what is left of it. */
  function FeedAll(send: bool, partial: seq<byte>, chunks: seq<seq<byte>>): (seq<Diagnostic>, seq<byte>)
    decreases |chunks|
  {
    if chunks == [] then ([], partial)
    else
      var parsed := Frames(partial + chunks[0]);
      var (events, rest) := FeedAll(send, parsed.rest, chunks[1..]);
      (EventsOf(send, parsed.bodies) + events, rest)
  }

  function Concat(chunks: seq<seq<byte>>): seq<byte> {
    if chunks == [] then [] else chunks[0] + Concat(chunks[1..])
  }

  /** However a stream is cut into chunks, the observer reports the events of its packets, once and in order. */
  lemma {:induction false} ChunksDoNotMatter(send: bool, partial: seq<byte>, chunks: seq<seq<byte>>)
    requires !Complete(partial)
    ensures var parsed := Frames(partial + Concat(chunks));
      FeedAll(send, partial, chunks) == (EventsOf(send, parsed.bodies), parsed.rest)
    decreases |chunks|
  {
    if chunks == [] {
      assert partial + Concat(chunks) == partial;
    } else {
      var now, later := partial + chunks[0], Concat(chunks[1..]);
      assert partial + Concat(chunks) == now + later;
      RestIsPartial(now);
      ChunksDoNotMatter(send, Frames(now).rest, chunks[1..]);
      FramesOfPieces(now, later);
      EventsOfAppend(send, Frames(now).bodies, Frames(Frames(now).rest + later).bodies);
    }
  }

  /**
   Chunk boundaries and content together: two streams of packets that agree on lengths and metadata are
   reported alike, however differently the two are cut into chunks.
   */
  lemma ObservationIgnoresChunksAndPayload(
    send: bool, a: seq<seq<byte>>, b: seq<seq<byte>>, cutA: seq<seq<byte>>, cutB: seq<seq<byte>>)
    requires |a| == |b| && forall i :: 0 <= i < |a| ==> SameMetadata(a[i], b[i])
    requires forall x :: x in a ==> |x| < 0x1_0000_0000
    requires forall x :: x in b ==> |x| < 0x1_0000_0000
    requires Concat(cutA) == Encode(a) && Concat(cutB) == Encode(b)
    ensures FeedAll(send, [], cutA).0 == FeedAll(send, [], cutB).0
  {
    ChunksDoNotMatter(send, [], cutA);
    ChunksDoNotMatter(send, [], cutB);
    assert [] + Concat(cutA) == Encode(a) && [] + Concat(cutB) == Encode(b);
    FramesOfEncode(a);
    FramesOfEncode(b);
    EventsIgnorePayload(send, a, b);
  }

  /** Some of `p` goes behind what there is; the rest follows it. */
  lemma CutIn(before: seq<byte>, p: seq<byte>, n: nat)
    requires n <= |p|
    ensures before + p == before + p[..n] + p[n..]
    ensures |before| >= 4 ==> (before + p[..n])[..4] == before[..4] && (before + p[..n])[4..] == before[4..] + p[..n]
  {
  }

  /** A stream that begins with one complete packet. */
  lemma FrameDone(send: bool, frame: seq<byte>, rest: seq<byte>)
    requires Complete(frame) && |frame| == 4 + Be32(frame[..4])
    ensures Frames(frame + rest).rest == Frames(rest).rest
    ensures EventsOf(send, Frames(frame + rest).bodies) ==
            BodyEvents(send, frame[4..]) + EventsOf(send, Frames(rest).bodies)
  {
    var stream := frame + rest;
    assert stream[..4] == frame[..4] && stream[4..|frame|] == frame[4..] && stream[|frame|..] == rest;
    EventsOfAppend(send, [frame[4..]], Frames(rest).bodies);
    assert EventsOf(send, [frame[4..]]) == BodyEvents(send, frame[4..]);
  }

  /** The number of metadata bytes of a body once its kind, and for paths its name length, have arrived. */
  function KnownLimit(body: seq<byte>): (limit: nat)
    requires body != [] && (CaptureLimit(body[0]) == PATH_PREFIX_LIMIT ==> |body| >= 9)
    ensures CaptureEnd(body) == Min(limit, |body|) && limit <= PREFIX_LIMIT
  {
    if CaptureLimit(body[0]) != PATH_PREFIX_LIMIT then CaptureLimit(body[0])
    else 9 + Min(Be32(body[5..9]), PATH_LIMIT)
  }

  lemma CapturedByLimit(body: seq<byte>, more: seq<byte>)
    requires body != [] && (CaptureLimit(body[0]) == PATH_PREFIX_LIMIT ==> |body| >= 9)
    ensures Captured(body + more) ==
      if CaptureEnd(body) < KnownLimit(body)
      then Captured(body) + more[..Min(KnownLimit(body) - CaptureEnd(body), |more|)] else Captured(body)
  {
    var whole := body + more;
    assert whole[0] == body[0];
    if CaptureLimit(body[0]) == PATH_PREFIX_LIMIT { assert whole[5..9] == body[5..9]; }
    assert KnownLimit(whole) == KnownLimit(body);
  }

  class PacketDiagnostics {
    const send: bool
    const header: array<byte>
    const prefix: array<byte>
    var headerN: nat
    var length: nat
    var remaining: nat
    var prefixN: nat
    var emitted: seq<Diagnostic>
    ghost var partial: seq<byte>  // the bytes of the current packet so far

    /** The buffers and counters are exactly what the bytes of the current packet determine. */
    ghost predicate Buffered()
      reads this, header, prefix
    {
      && header.Length == 4 && prefix.Length == PREFIX_LIMIT
      && headerN == Min(4, |partial|) && header[..headerN] == partial[..headerN]
      && (headerN == 4 ==>
            && length == Be32(partial[..4])
            && |partial| + remaining == 4 + length
            && prefixN <= PREFIX_LIMIT && prefix[..prefixN] == Captured(partial[4..]))
    }

    /** Between chunks the current packet is incomplete. */
    ghost predicate Valid()
      reads this, header, prefix
    {
      Buffered() && !Complete(partial)
    }

    constructor (send: bool)
      ensures Valid() && fresh(header) && fresh(prefix)
      ensures partial == [] && emitted == [] && this.send == send
    {
      this.send := send;
      header := new byte[4];
      prefix := new byte[PREFIX_LIMIT];
      headerN, length, remaining, prefixN, emitted, partial := 0, 0, 0, 0, [], [];
    }

    /** Observes the next chunk of the stream. */
    method Feed(chunk: seq<byte>)
      requires Valid()
      modifies this, header, prefix
      ensures Valid()
      ensures partial == Frames(old(partial) + chunk).rest
      ensures emitted == old(emitted) + EventsOf(send, Frames(old(partial) + chunk).bodies)
    {
      var p := chunk;
      ghost var todo := Frames(partial + p);
      while |p| > 0
        invariant Valid()
        invariant Frames(partial + p).rest == todo.rest
        invariant emitted + EventsOf(send, Frames(partial + p).bodies) == old(emitted) + EventsOf(send, todo.bodies)
        decreases |p|
      {
        p := Turn(p);
      }
      assert partial + p == partial;
    }

    /** One turn of the loop consumes some bytes and leaves what is still to be reported unchanged. */
    method Turn(p: seq<byte>) returns (q: seq<byte>)
      requires Valid() && |p| > 0
      modifies this, header, prefix
      ensures Valid() && |q| < |p|
      ensures Frames(partial + q).rest == Frames(old(partial) + p).rest
      ensures emitted + EventsOf(send, Frames(partial + q).bodies) ==
              old(emitted) + EventsOf(send, Frames(old(partial) + p).bodies)
    {
      if headerN < 4 {
        q := TakeHeader(p);
      } else {
        q := TakeBody(p);
      }
      if headerN == 4 && remaining == 0 {
        FrameDone(send, partial, q);
        Assoc(emitted, BodyEvents(send, partial[4..]), EventsOf(send, Frames(q).bodies));
        EndPacket();
        assert partial + q == q;
      }
    }

    /** Reports the finished packet and gets ready for the next. */
    method EndPacket()
      requires Buffered() && headerN == 4 && remaining == 0
      modifies this
      ensures Valid() && partial == []
      ensures emitted == old(emitted) + BodyEvents(send, old(partial)[4..])
    {
      assert |partial[4..]| == length && prefix[..prefixN] == Captured(partial[4..]);
      assert ReportEvents(send, length, prefix[..prefixN]) == BodyEvents(send, partial[4..]);
      Report();
      headerN := 0;
      partial := [];
    }

    /** Fills the length header; a complete header starts a packet. */
    method TakeHeader(p: seq<byte>) returns (q: seq<byte>)
      requires Valid() && headerN < 4 && |p| > 0
      modifies this, header
      ensures Buffered() && |q| < |p| && partial + q == old(partial) + p
      ensures emitted == old(emitted)
    {
      var n := Min(4 - headerN, |p|);
      FillHeader(p[..n]);
      q := p[n..];
      CutIn(partial, p, n);
      partial := partial + p[..n];
      if headerN == 4 {
        StartPacket();
      }
    }

    method FillHeader(p: seq<byte>)
      requires header.Length == 4 && headerN + |p| <= 4
      modifies this`headerN, header
      ensures headerN == old(headerN) + |p| && header[..headerN] == old(header[..headerN]) + p
    {
      forall i | 0 <= i < |p| {
        header[headerN + i] := p[i];
      }
      headerN := headerN + |p|;
    }

    /** A complete header says how long the packet is. */
    method StartPacket()
      requires header.Length == 4 && prefix.Length == PREFIX_LIMIT && header != prefix
      requires headerN == 4 && |partial| == 4 && header[..] == partial
      modifies this`length, this`remaining, this`prefixN
      ensures Buffered()
    {
      assert partial[..4] == partial && partial[4..] == [];
      length := Be32(header[..]);
      remaining := length;
      prefixN := 0;
    }

    /** Takes what belongs to the current packet: its kind first, then only metadata. */
    method TakeBody(p: seq<byte>) returns (q: seq<byte>)
      requires Valid() && headerN == 4 && |p| > 0
      modifies this, prefix
      ensures Buffered() && |q| < |p| && partial + q == old(partial) + p
      ensures emitted == old(emitted)
    {
      q := p;
      if prefixN == 0 {
        q := TakeKind(q);
      }
      q := TakeMetadata(q);
    }

    /** What follows the kind byte. */
    method TakeMetadata(p: seq<byte>) returns (q: seq<byte>)
      requires Buffered() && headerN == 4 && prefixN > 0
      modifies this, prefix
      ensures Buffered() && |q| <= |p| && partial + q == old(partial) + p
      ensures p != [] && old(remaining) > 0 ==> |q| < |p|
      ensures emitted == old(emitted)
    {
      var n := Min(|p|, remaining);
      ghost var body, before := partial[4..], partial;
      assert prefix[0] == prefix[..prefixN][0] == body[0];
      Capture(p[..n], CaptureLimit(prefix[0]), body);
      remaining := remaining - n;
      q := p[n..];
      partial := before + p[..n];
      CutIn(before, p, n);
    }

    /** The first byte of a body says how much of it may be kept. */
    method TakeKind(p: seq<byte>) returns (q: seq<byte>)
      requires Valid() && headerN == 4 && |p| > 0 && prefixN == 0
      modifies this, prefix
      ensures Buffered() && headerN == 4 && prefixN == 1 && |q| == |p| - 1 && partial + q == old(partial) + p
      ensures emitted == old(emitted)
    {
      assert partial[4..] == [];
      prefix[0] := p[0];
      prefixN := 1;
      remaining := remaining - 1;
      partial := partial + [p[0]];
      q := p[1..];
      assert partial[4..] == [p[0]] && CaptureEnd([p[0]]) == 1;
    }

    /** Copies metadata into the prefix buffer: for paths first the name length, then no more than the name. */
    method Capture(p: seq<byte>, limit: nat, ghost body: seq<byte>)
      requires prefix.Length == PREFIX_LIMIT && body != [] && limit == CaptureLimit(body[0])
      requires prefixN <= PREFIX_LIMIT && prefix[..prefixN] == Captured(body)
      modifies this`prefixN, prefix
      ensures prefixN <= PREFIX_LIMIT && prefix[..prefixN] == Captured(body + p)
    {
      if limit != PATH_PREFIX_LIMIT {
        CapturedByLimit(body, p);
        if prefixN < limit {
          var n := CopyPrefix(p, limit);
        }
        return;
      }
      var q := p;
      ghost var seen := body;
      if prefixN < 9 {
        var n := CopyPrefix(q, 9);
        seen := body + q[..n];
        assert seen[0] == body[0] && Captured(seen) == seen;
        assert body + p == seen + q[n..];
        q := q[n..];
      }
      if prefixN < 9 {
        assert q == [] && seen + q == seen;
        return;
      }
      CapturePath(q, seen);
    }

    /** The rest of a path packet, whose name length has been captured. */
    method CapturePath(p: seq<byte>, ghost body: seq<byte>)
      requires prefix.Length == PREFIX_LIMIT && |body| >= 9 && CaptureLimit(body[0]) == PATH_PREFIX_LIMIT
      requires 9 <= prefixN <= PREFIX_LIMIT && prefix[..prefixN] == Captured(body)
      modifies this`prefixN, prefix
      ensures prefixN <= PREFIX_LIMIT && prefix[..prefixN] == Captured(body + p)
    {
      assert prefix[5..9] == prefix[..prefixN][5..9] == body[5..9];
      var limit := 9 + Min(Be32(prefix[5..9]), PATH_LIMIT);
      CapturedByLimit(body, p);
      if prefixN < limit {
        var n := CopyPrefix(p, limit);
      }
    }

    /** copy(prefix[prefixN:room], p) followed by the advance of prefixN. */
    method CopyPrefix(p: seq<byte>, room: nat) returns (n: nat)
      requires prefixN <= room <= prefix.Length
      modifies this`prefixN, prefix
      ensures n == Min(room - old(prefixN), |p|) && prefixN == old(prefixN) + n
      ensures prefix[..prefixN] == old(prefix[..prefixN]) + p[..n]
    {
      n := Min(room - prefixN, |p|);
      forall i | 0 <= i < n {
        prefix[prefixN + i] := p[i];
      }
      prefixN := prefixN + n;
      assert prefix[..prefixN] == old(prefix[..prefixN]) + p[..n];
    }

    method Emit(e: Diagnostic)
      modifies this`emitted
      ensures emitted == old(emitted) + [e]
    {
      emitted := emitted + [e];
    }

    /** Reports a finished packet from its kept prefix. */
    method Report()
      requires prefix.Length == PREFIX_LIMIT && prefixN <= PREFIX_LIMIT
      modifies this`emitted
      ensures emitted == old(emitted) + ReportEvents(send, length, prefix[..prefixN])
    {
      var p := prefix[..prefixN];
      var e := Describe(length, p);
      Emit(e);
      if Featureless(p) {
        return;
      }
      if IsVersion(p[0]) {
        ReportVersion(e, p);
      } else {
        ReportOperation(e, p);
      }
      Assoc(old(emitted), [e], emitted[|old(emitted)| + 1..]);
    }

    /** The first event of a packet, filled in field by field. */
    static method Describe(length: nat, p: seq<byte>) returns (e: Diagnostic)
      ensures e == PacketEvent(length, p)
    {
      e := Blank(length);
      if |p| == 0 {
        e := e.(kind := Malformed);
        return;
      }
      e := e.(packetType := p[0]);
      if CaptureLimit(p[0]) == 1 {
        return;
      }
      if |p| < 5 {
        e := e.(kind := Malformed);
        return;
      }
      e := e.(hasPacketID := true, packetID := Be32(p[1..5]));
      if p[0] == 1 || p[0] == 2 {
        e := e.(protocolVersion := e.packetID, packetID := 0, hasPacketID := false);
      }
      if p[0] == 101 && |p| >= 9 {
        e := e.(hasStatus := true, statusCode := Be32(p[5..9]));
      }
    }

    method ReportOperation(packet: Diagnostic, p: seq<byte>)
      requires |p| >= 5
      modifies this`emitted
      ensures emitted == old(emitted) + OperationEvents(send, packet, p)
    {
      if !send || CaptureLimit(p[0]) != PATH_PREFIX_LIMIT {
        return;
      }
      var s := DiagnosticString(p[5..]);
      if !s.ok && |p| < 9 {
        return;
      }
      var e := packet.(kind := Operation, level := 2, truncated := !s.ok);
      if p[0] == 200 {
        e := e.(extension := s.value);
      } else {
        e := e.(path := s.value);
      }
      Emit(e);
    }

    method ReportVersion(packet: Diagnostic, p: seq<byte>)
      requires |p| >= 5
      modifies this`emitted
      ensures emitted == old(emitted) + VersionEvents(packet, length, p)
    {
      var e := packet.(kind := Version, level := 2, truncated := length > |p|);
      Emit(e);
      if e.packetType == 2 {
        ReportExtensions(e, p[5..]);
        Assoc(old(emitted), [e], ExtensionEvents(e, p[5..]));
      }
    }

    method ReportExtensions(e: Diagnostic, pairs: seq<byte>)
      modifies this`emitted
      ensures emitted == old(emitted) + ExtensionEvents(e, pairs)
    {
      var p := pairs;
      ghost var before := emitted;
      while |p| > 0
        invariant emitted + ExtensionEvents(e, p) == before + ExtensionEvents(e, pairs)
        decreases |p|
      {
        var name := DiagnosticString(p);
        if !name.ok {
          return;
        }
        var data := DiagnosticString(name.rest);
        if !data.ok {
          return;
        }
        var next := e.(kind := ExtensionPair, extension := name.value, extensionVersion := data.value);
        Assoc(emitted, [next], ExtensionEvents(e, data.rest));
        Emit(next);
        p := data.rest;
      }
    }
  }
}
