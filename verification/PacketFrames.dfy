/**
 The reference view of an observed SFTP stream: whole length-prefixed packets (section 3 of
 draft-ietf-secsh-filexfer-02), the metadata that may be kept of each, and the events it gives rise to.
 */
module PacketFrames {
  import opened Prelude

  const PREFIX_LIMIT := 16384
  const PATH_LIMIT := 512
  const PATH_PREFIX_LIMIT := 9 + PATH_LIMIT

  function Be32(s: seq<byte>): (n: nat)
    requires |s| == 4
    ensures n < 0x1_0000_0000
  {
    (s[0] as int) * 0x100_0000 + (s[1] as int) * 0x1_0000 + (s[2] as int) * 0x100 + s[3] as int
  }

  function Be32Bytes(n: nat): seq<byte>
    requires n < 0x1_0000_0000
  {
    [n / 0x100_0000, n / 0x1_0000 % 0x100, n / 0x100 % 0x100, n % 0x100]
  }

  lemma Be32RoundTrip(n: nat)
    requires n < 0x1_0000_0000
    ensures |Be32Bytes(n)| == 4 && Be32(Be32Bytes(n)) == n
  {
    assert n == n / 0x1_0000 * 0x1_0000 + n % 0x1_0000;
    assert n / 0x1_0000 / 0x100 == n / 0x100_0000;
    assert n / 0x100 / 0x100 == n / 0x1_0000;
  }

  // ---------- Frames ----------

  /** The bodies of the complete packets of a stream, and the bytes of the packet still arriving. */
  datatype Parsed = Parsed(bodies: seq<seq<byte>>, rest: seq<byte>)

  predicate Complete(stream: seq<byte>) {
    |stream| >= 4 && |stream| >= 4 + Be32(stream[..4])
  }

  function Frames(stream: seq<byte>): Parsed {
    if !Complete(stream) then Parsed([], stream)
    else
      var n := 4 + Be32(stream[..4]);
      var more := Frames(stream[n..]);
      Parsed([stream[4..n]] + more.bodies, more.rest)
  }

  function Encode(bodies: seq<seq<byte>>): seq<byte>
    requires forall b :: b in bodies ==> |b| < 0x1_0000_0000
  {
    if bodies == [] then [] else Be32Bytes(|bodies[0]|) + bodies[0] + Encode(bodies[1..])
  }

  /** Parsing recovers exactly the packets that were framed. */
  lemma {:induction false} FramesOfEncode(bodies: seq<seq<byte>>)
    requires forall b :: b in bodies ==> |b| < 0x1_0000_0000
    ensures Frames(Encode(bodies)) == Parsed(bodies, [])
  {
    if bodies != [] {
      var stream := Encode(bodies);
      var n := |bodies[0]|;
      Be32RoundTrip(n);
      assert stream[..4] == Be32Bytes(n);
      assert stream[4..4 + n] == bodies[0];
      assert stream[4 + n..] == Encode(bodies[1..]);
      FramesOfEncode(bodies[1..]);
    }
  }

  /** What is left over is never a complete packet. */
  lemma {:induction false} RestIsPartial(stream: seq<byte>)
    ensures !Complete(Frames(stream).rest)
    ensures Frames(Frames(stream).rest) == Parsed([], Frames(stream).rest)
    decreases |stream|
  {
    if Complete(stream) {
      RestIsPartial(stream[4 + Be32(stream[..4])..]);
    }
  }

  lemma FirstFrame(a: seq<byte>, b: seq<byte>)
    requires Complete(a)
    ensures var n := 4 + Be32(a[..4]);
      && Frames(a) == Parsed([a[4..n]] + Frames(a[n..]).bodies, Frames(a[n..]).rest)
      && Frames(a + b) == Parsed([a[4..n]] + Frames(a[n..] + b).bodies, Frames(a[n..] + b).rest)
  {
    var n, ab := 4 + Be32(a[..4]), a + b;
    assert ab[..4] == a[..4] && ab[4..n] == a[4..n] && ab[n..] == a[n..] + b;
  }

  lemma Prepend<T>(x: T, a: seq<T>, b: seq<T>)
    ensures [x] + (a + b) == ([x] + a) + b && [] + a == a
  {
  }

  /** A stream may be cut anywhere: parsing the pieces in turn, carrying the rest over, gives the same packets. */
  lemma {:induction false} FramesOfPieces(a: seq<byte>, b: seq<byte>)
    ensures Frames(a + b).bodies == Frames(a).bodies + Frames(Frames(a).rest + b).bodies
    ensures Frames(a + b).rest == Frames(Frames(a).rest + b).rest
    decreases |a|
  {
    if !Complete(a) {
      Prepend([], Frames(a + b).bodies, []);
    } else {
      var n := 4 + Be32(a[..4]);
      FirstFrame(a, b);
      FramesOfPieces(a[n..], b);
      Prepend(a[4..n], Frames(a[n..]).bodies, Frames(Frames(a[n..]).rest + b).bodies);
    }
  }

  // ---------- Metadata kept of a packet ----------

  function CaptureLimit(kind: byte): (limit: nat)
    ensures 1 <= limit <= PREFIX_LIMIT
  {
    if kind == 2 then PREFIX_LIMIT
    else if kind in {3, 7, 9, 11, 13, 14, 15, 16, 17, 18, 19, 20, 200} then PATH_PREFIX_LIMIT
    else if kind in {101, 103} then 9
    else if kind in {1, 4, 5, 6, 8, 10, 12, 102, 104, 105, 201} then 5
    else 1
  }

  /** How many leading bytes of a body, or of the part of it that has arrived, may be kept. */
  function CaptureEnd(body: seq<byte>): (n: nat)
    requires body != []
    ensures 1 <= n <= |body| && n <= PREFIX_LIMIT
  {
    var limit := CaptureLimit(body[0]);
    if limit != PATH_PREFIX_LIMIT then Min(limit, |body|)
    else if |body| < 9 then |body|
    else Min(9 + Min(Be32(body[5..9]), PATH_LIMIT), |body|)
  }

  function Captured(body: seq<byte>): seq<byte> {
    if body == [] then [] else body[..CaptureEnd(body)]
  }

  // ---------- Events ----------

  datatype Kind = Packet | Malformed | Operation | Version | ExtensionPair

  datatype Diagnostic = Diagnostic(
    kind: Kind, level: nat, packetLength: nat, packetType: byte,
    hasPacketID: bool, packetID: nat, protocolVersion: nat, hasStatus: bool, statusCode: nat,
    truncated: bool, path: seq<byte>, extension: seq<byte>, extensionVersion: seq<byte>)

  function Blank(length: nat): Diagnostic {
    Diagnostic(Packet, 3, length, 0, false, 0, 0, false, 0, false, [], [], [])
  }

  datatype StringResult = StringResult(value: seq<byte>, rest: seq<byte>, ok: bool)

  /** A length-prefixed string, clipped to the bytes that are there. */
  function DiagnosticString(p: seq<byte>): (r: StringResult)
    ensures r.ok ==> |r.rest| < |p|
  {
    if |p| < 4 then StringResult([], [], false)
    else if Be32(p[..4]) > |p| - 4 then StringResult(p[4..], [], false)
    else StringResult(p[4..4 + Be32(p[..4])], p[4 + Be32(p[..4])..], true)
  }

  /** One event for each complete name-data pair of a VERSION packet, up to the first clipped string. */
  function ExtensionEvents(e: Diagnostic, p: seq<byte>): seq<Diagnostic>
    decreases |p|
  {
    if p == [] then []
    else
      var name := DiagnosticString(p);
      if !name.ok then []
      else
        var data := DiagnosticString(name.rest);
        if !data.ok then []
        else
          [e.(kind := ExtensionPair, extension := name.value, extensionVersion := data.value)] +
          ExtensionEvents(e, data.rest)
  }

  /** Nothing can be said of a packet beyond its length and type: it is empty, clipped, or of an unknown type. */
  predicate Featureless(p: seq<byte>) {
    |p| < 5 || CaptureLimit(p[0]) == 1
  }

  function IsVersion(kind: byte): bool {
    kind == 1 || kind == 2
  }

  /** The event every packet of `length` bytes gives, from the prefix `p` kept of it. */
  function PacketEvent(length: nat, p: seq<byte>): Diagnostic {
    var e := Blank(length);
    if p == [] then e.(kind := Malformed)
    else if Featureless(p) then e.(kind := if CaptureLimit(p[0]) == 1 then Packet else Malformed, packetType := p[0])
    else
      var id := Be32(p[1..5]);
      if IsVersion(p[0]) then e.(packetType := p[0], protocolVersion := id)
      else
        var status := p[0] == 101 && |p| >= 9;
        e.(packetType := p[0], hasPacketID := true, packetID := id,
           hasStatus := status, statusCode := if status then Be32(p[5..9]) else 0)
  }

  /** The event of a VERSION or INIT packet, followed by its extension pairs. */
  function VersionEvents(e: Diagnostic, length: nat, p: seq<byte>): seq<Diagnostic>
    requires |p| >= 5
  {
    var v := e.(kind := Version, level := 2, truncated := length > |p|);
    [v] + if e.packetType == 2 then ExtensionEvents(v, p[5..]) else []
  }

  /** The event of an outgoing request that names a path or an extension. */
  function OperationEvents(send: bool, e: Diagnostic, p: seq<byte>): seq<Diagnostic>
    requires |p| >= 5
  {
    var s := DiagnosticString(p[5..]);
    if !send || CaptureLimit(p[0]) != PATH_PREFIX_LIMIT || (!s.ok && |p| < 9) then []
    else if p[0] == 200 then [e.(kind := Operation, level := 2, truncated := !s.ok, extension := s.value)]
    else [e.(kind := Operation, level := 2, truncated := !s.ok, path := s.value)]
  }

  function ReportEvents(send: bool, length: nat, p: seq<byte>): seq<Diagnostic> {
    var e := PacketEvent(length, p);
    [e] +
    if Featureless(p) then []
    else if IsVersion(p[0]) then VersionEvents(e, length, p)
    else OperationEvents(send, e, p)
  }

  function BodyEvents(send: bool, body: seq<byte>): seq<Diagnostic> {
    ReportEvents(send, |body|, Captured(body))
  }

  function EventsOf(send: bool, bodies: seq<seq<byte>>): seq<Diagnostic> {
    if bodies == [] then [] else BodyEvents(send, bodies[0]) + EventsOf(send, bodies[1..])
  }

  lemma {:induction false} EventsOfAppend(send: bool, a: seq<seq<byte>>, b: seq<seq<byte>>)
    ensures EventsOf(send, a + b) == EventsOf(send, a) + EventsOf(send, b)
  {
    if a == [] {
      assert a + b == b;
    } else {
      assert (a + b)[0] == a[0] && (a + b)[1..] == a[1..] + b;
      EventsOfAppend(send, a[1..], b);
    }
  }

  // ---------- What the events may depend on ----------

  /** Same length, and the same bytes wherever the first body's metadata lies. */
  predicate SameMetadata(a: seq<byte>, b: seq<byte>) {
    |a| == |b| && (a != [] ==> b[..CaptureEnd(a)] == a[..CaptureEnd(a)])
  }

  lemma MetadataDecidesCapture(a: seq<byte>, b: seq<byte>)
    requires SameMetadata(a, b)
    ensures Captured(a) == Captured(b)
  {
    if a != [] {
      assert a[0] == a[..CaptureEnd(a)][0] == b[..CaptureEnd(a)][0] == b[0];
      if CaptureLimit(a[0]) == PATH_PREFIX_LIMIT && |a| >= 9 {
        assert a[5..9] == a[..CaptureEnd(a)][5..9];
        assert b[5..9] == b[..CaptureEnd(a)][5..9];
      }
    }
  }

  /** File data, handles and error text never show: streams that agree on lengths and metadata give equal events. */
  lemma {:induction false} EventsIgnorePayload(send: bool, a: seq<seq<byte>>, b: seq<seq<byte>>)
    requires |a| == |b| && forall i :: 0 <= i < |a| ==> SameMetadata(a[i], b[i])
    ensures EventsOf(send, a) == EventsOf(send, b)
  {
    if a != [] {
      MetadataDecidesCapture(a[0], b[0]);
      EventsIgnorePayload(send, a[1..], b[1..]);
    }
  }

  /** The packets that carry content keep at most their request ID, status code or content length. */
  lemma ContentPacketsKeepHeaderOnly(body: seq<byte>)
    requires body != []
    ensures body[0] in {6, 102, 104, 105} ==> CaptureEnd(body) <= 5
    ensures body[0] in {101, 103} ==> CaptureEnd(body) <= 9
    ensures CaptureLimit(body[0]) == PATH_PREFIX_LIMIT && |body| >= 9 ==> CaptureEnd(body) <= 9 + Be32(body[5..9])
  {
  }

  // ---------- Arriving bodies ----------

  /** Metadata of a longer part: nothing more once the limit was reached, otherwise the next bytes up to the limit. */
  lemma CapturedGrows(body: seq<byte>, more: seq<byte>)
    requires body != []
    ensures Captured(body) <= Captured(body + more)
    ensures CaptureEnd(body) < |body| ==> Captured(body + more) == Captured(body)
  {
    var whole := body + more;
    assert whole[0] == body[0];
    if CaptureLimit(body[0]) == PATH_PREFIX_LIMIT && |body| >= 9 {
      assert whole[5..9] == body[5..9];
    }
    assert CaptureEnd(body) <= CaptureEnd(whole);
    assert whole[..CaptureEnd(body)] == body[..CaptureEnd(body)];
  }
}
