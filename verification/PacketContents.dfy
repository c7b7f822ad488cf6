/**
 What the observer says of packets, in terms of the fields that were put into them. Every body is a message of one of
 these forms, and each form is reported as its fields say, however the stream is cut into chunks.
 */
module PacketContents {
  import opened Prelude
  import opened PacketFrames
  import opened PacketObserver

  // ---------- Messages ----------

  type Word = n: nat | n < 0x1_0000_0000

  type Text = s: seq<byte> | |s| < 0x1_0000_0000

  /** A name and its data, as a VERSION packet lists them. */
  datatype Extension = Extension(name: Text, data: Text)

  datatype Message =
    | Nothing                                                    // an empty body
    | Foreign(kind: byte, rest: seq<byte>)                       // of no type that is known
    | Stub(kind: byte, rest: seq<byte>)                          // of a known type, but too short
    | Init(version: Word, rest: seq<byte>)
    | Offer(version: Word, extensions: seq<Extension>, rest: seq<byte>)
    | Outcome(id: Word, code: Word, rest: seq<byte>)
    | Numbered(kind: byte, id: Word, rest: seq<byte>)            // only its number shows
    | Naming(kind: byte, id: Word, size: Word, rest: seq<byte>)  // a name of the stated size follows, or what is there

  /** The requests that begin with a path, and the extended request, which begins with a name. */
  predicate Names(kind: byte) {
    kind in {3, 7, 9, 11, 13, 14, 15, 16, 17, 18, 19, 20, 200}
  }

  predicate Plain(kind: byte) {
    kind in {4, 5, 6, 8, 10, 12, 102, 103, 104, 105, 201}
  }

  predicate IsKnown(kind: byte) {
    Names(kind) || Plain(kind) || kind in {1, 2, 101}
  }

  ghost predicate Valid(m: Message) {
    match m
    case Nothing => true
    case Foreign(kind, _) => !IsKnown(kind)
    case Stub(kind, rest) => IsKnown(kind) && |rest| < 4
    case Offer(_, _, rest) => Broken(rest)
    case Numbered(kind, _, rest) => Plain(kind) || ((Names(kind) || kind == 101) && |rest| < 4)
    case Naming(kind, _, _, _) => Names(kind)
    case _ => true
  }

  function StringBytes(s: Text): seq<byte> {
    Be32Bytes(|s|) + s
  }

  function ExtensionBytes(x: Extension): seq<byte> {
    StringBytes(x.name) + StringBytes(x.data)
  }

  function AllExtensionBytes(extensions: seq<Extension>): seq<byte> {
    if extensions == [] then [] else ExtensionBytes(extensions[0]) + AllExtensionBytes(extensions[1..])
  }

  /** The bytes do not begin with a whole extension. */
  ghost predicate Broken(p: seq<byte>) {
    forall x: Extension :: !Begins(x, p)
  }

  predicate Begins(x: Extension, p: seq<byte>) {
    ExtensionBytes(x) <= p
  }

  ghost function Body(m: Message): seq<byte>
    requires Valid(m)
  {
    match m
    case Nothing => []
    case Foreign(kind, rest) => [kind] + rest
    case Stub(kind, rest) => [kind] + rest
    case Init(version, rest) => [1] + Be32Bytes(version) + rest
    case Offer(version, extensions, rest) => [2] + Be32Bytes(version) + (AllExtensionBytes(extensions) + rest)
    case Outcome(id, code, rest) => [101] + Be32Bytes(id) + (Be32Bytes(code) + rest)
    case Numbered(kind, id, rest) => [kind] + Be32Bytes(id) + rest
    case Naming(kind, id, size, rest) => [kind] + Be32Bytes(id) + (Be32Bytes(size) + rest)
  }

  // ---------- What is said of them ----------

  /** A report of nothing but the length and the type of a packet. */
  function Bare(kind: Kind, level: nat, length: nat, packetType: byte): Diagnostic {
    Diagnostic(kind, level, length, packetType, false, 0, 0, false, 0, false, [], [], [])
  }

  /** How many of the extensions lie within the first `room` bytes of their encoding. */
  function Fitting(extensions: seq<Extension>, room: int): (n: nat)
    ensures n <= |extensions|
  {
    if extensions == [] || |ExtensionBytes(extensions[0])| > room then 0
    else 1 + Fitting(extensions[1..], room - |ExtensionBytes(extensions[0])|)
  }

  function ExtensionReports(e: Diagnostic, extensions: seq<Extension>): seq<Diagnostic> {
    if extensions == [] then []
    else
      [e.(kind := ExtensionPair, extension := extensions[0].name, extensionVersion := extensions[0].data)] +
      ExtensionReports(e, extensions[1..])
  }

  ghost function Told(send: bool, m: Message): seq<Diagnostic>
    requires Valid(m)
  {
    var length := |Body(m)|;
    match m
    case Nothing => [Bare(Malformed, 3, 0, 0)]
    case Foreign(kind, _) => [Bare(Packet, 3, length, kind)]
    case Stub(kind, _) => [Bare(Malformed, 3, length, kind)]
    case Init(version, _) =>
      var e := Bare(Packet, 3, length, 1).(protocolVersion := version);
      [e, e.(kind := Version, level := 2, truncated := length > 5)]
    case Offer(version, extensions, _) =>
      var e := Bare(Packet, 3, length, 2).(protocolVersion := version);
      var v := e.(kind := Version, level := 2, truncated := length > 16384);
      [e, v] + ExtensionReports(v, extensions[..Fitting(extensions, 16384 - 5)])
    case Outcome(id, code, _) =>
      [Bare(Packet, 3, length, 101).(hasPacketID := true, packetID := id, hasStatus := true, statusCode := code)]
    case Numbered(kind, id, _) => [Bare(Packet, 3, length, kind).(hasPacketID := true, packetID := id)]
    case Naming(kind, id, size, rest) =>
      var e := Bare(Packet, 3, length, kind).(hasPacketID := true, packetID := id);
      var name := rest[..Min(Min(size, 512), |rest|)];
      var o := e.(kind := Operation, level := 2, truncated := |name| < size);
      if !send then [e] else [e, if kind == 200 then o.(extension := name) else o.(path := name)]
  }

  // ---------- Each form is reported as its fields say ----------

  lemma HeaderReads(kind: byte, n: Word, rest: seq<byte>)
    ensures var p := [kind] + Be32Bytes(n) + rest; |p| >= 5 && p[0] == kind && Be32(p[1..5]) == n && p[5..] == rest
  {
    Be32RoundTrip(n);
    var p := [kind] + Be32Bytes(n) + rest;
    assert p[1..5] == Be32Bytes(n);
  }

  /** The start of a packet whose second word is kept too. */
  lemma SecondWordReads(kind: byte, n: Word, m: Word, rest: seq<byte>)
    ensures var p := [kind] + Be32Bytes(n) + (Be32Bytes(m) + rest);
      && |p| == 9 + |rest| && p[0] == kind && Be32(p[1..5]) == n && Be32(p[5..9]) == m && p[9..] == rest
  {
    HeaderReads(kind, n, Be32Bytes(m) + rest);
    Be32RoundTrip(m);
    var p := [kind] + Be32Bytes(n) + (Be32Bytes(m) + rest);
    assert p[5..9] == p[5..][..4] == Be32Bytes(m);
    assert p[9..] == p[5..][4..] == rest;
  }

  lemma CutHeader(p: seq<byte>, k: nat)
    requires k <= |p|
    ensures k >= 5 ==> p[..k][1..5] == p[1..5]
    ensures k >= 9 ==> p[..k][5..9] == p[5..9]
  {
  }

  lemma ShortIsTold(send: bool, m: Message)
    requires Valid(m) && (m.Nothing? || m.Foreign? || m.Stub?)
    ensures BodyEvents(send, Body(m)) == Told(send, m)
  {
  }

  lemma InitIsTold(send: bool, m: Message)
    requires Valid(m) && m.Init?
    ensures BodyEvents(send, Body(m)) == Told(send, m)
  {
    HeaderReads(1, m.version, m.rest);
    CutHeader(Body(m), 5);
  }

  lemma OutcomeIsTold(send: bool, m: Message)
    requires Valid(m) && m.Outcome?
    ensures BodyEvents(send, Body(m)) == Told(send, m)
  {
    SecondWordReads(101, m.id, m.code, m.rest);
    CutHeader(Body(m), 9);
  }

  lemma NumberedIsTold(send: bool, m: Message)
    requires Valid(m) && m.Numbered?
    ensures BodyEvents(send, Body(m)) == Told(send, m)
  {
    var p := Body(m);
    HeaderReads(m.kind, m.id, m.rest);
    CutHeader(p, CaptureEnd(p));
    NumberIsTold(send, |p|, p[..CaptureEnd(p)], m.id);
  }

  lemma NumberIsTold(send: bool, length: nat, q: seq<byte>, id: nat)
    requires |q| >= 5 && Be32(q[1..5]) == id && (Plain(q[0]) || ((Names(q[0]) || q[0] == 101) && |q| < 9))
    ensures ReportEvents(send, length, q) == [Bare(Packet, 3, length, q[0]).(hasPacketID := true, packetID := id)]
  {
  }

  /** The name is kept up to the limit, and what is clipped is said to be. */
  lemma NameReads(p: seq<byte>, size: Word, rest: seq<byte>)
    requires |p| >= 9 && Be32(p[5..9]) == size && p[9..] == rest
    ensures var name := rest[..Min(Min(size, 512), |rest|)];
      var s := DiagnosticString(p[..9 + |name|][5..]);
      s.value == name && (s.ok <==> |name| == size)
  {
    var name := rest[..Min(Min(size, 512), |rest|)];
    var kept := p[..9 + |name|][5..];
    assert kept[..4] == p[5..9] && kept[4..] == name;
    assert |name| >= size ==> kept[4..4 + size] == name;
  }

  lemma NamingIsTold(send: bool, m: Message)
    requires Valid(m) && m.Naming?
    ensures BodyEvents(send, Body(m)) == Told(send, m)
  {
    var p := Body(m);
    var name := m.rest[..Min(Min(m.size, 512), |m.rest|)];
    SecondWordReads(m.kind, m.id, m.size, m.rest);
    assert CaptureEnd(p) == 9 + |name|;
    CutHeader(p, 9 + |name|);
    NameReads(p, m.size, m.rest);
    KeptIsTold(send, |p|, p[..9 + |name|], m.id, m.size, name);
  }

  lemma KeptIsTold(send: bool, length: nat, q: seq<byte>, id: nat, size: nat, name: seq<byte>)
    requires |q| >= 9 && Names(q[0]) && Be32(q[1..5]) == id
    requires var s := DiagnosticString(q[5..]); s.value == name && (s.ok <==> |name| == size) && |name| <= size
    ensures var e := Bare(Packet, 3, length, q[0]).(hasPacketID := true, packetID := id);
      var o := e.(kind := Operation, level := 2, truncated := |name| < size);
      ReportEvents(send, length, q) ==
        if !send then [e] else [e, if q[0] == 200 then o.(extension := name) else o.(path := name)]
  {
  }

  // ---------- Extensions ----------

  lemma StringReads(s: Text, rest: seq<byte>)
    ensures DiagnosticString(StringBytes(s) + rest) == StringResult(s, rest, true)
  {
    Be32RoundTrip(|s|);
    var p := StringBytes(s) + rest;
    assert p[..4] == Be32Bytes(|s|) && p[4..4 + |s|] == s && p[4 + |s|..] == rest;
  }

  lemma ExtensionReads(e: Diagnostic, x: Extension, rest: seq<byte>)
    ensures ExtensionEvents(e, ExtensionBytes(x) + rest) ==
      [e.(kind := ExtensionPair, extension := x.name, extensionVersion := x.data)] + ExtensionEvents(e, rest)
  {
    assert ExtensionBytes(x) + rest == StringBytes(x.name) + (StringBytes(x.data) + rest);
    StringReads(x.name, StringBytes(x.data) + rest);
    StringReads(x.data, rest);
    Be32RoundTrip(|x.name|);
  }

  /** Bytes that two strings can be read from begin with an extension. */
  lemma ReadsAsExtension(p: seq<byte>)
    requires DiagnosticString(p).ok && DiagnosticString(DiagnosticString(p).rest).ok
    ensures !Broken(p)
  {
    var name := DiagnosticString(p);
    var data := DiagnosticString(name.rest);
    StringIsThere(p);
    StringIsThere(name.rest);
    var x := Extension(name.value, data.value);
    assert p == ExtensionBytes(x) + data.rest;
    assert Begins(x, p);
  }

  lemma StringIsThere(p: seq<byte>)
    requires DiagnosticString(p).ok
    ensures var s := DiagnosticString(p); |s.value| < 0x1_0000_0000 && p == StringBytes(s.value) + s.rest
  {
    Be32Bytewise(p[..4]);
    assert p == p[..4] + p[4..4 + Be32(p[..4])] + p[4 + Be32(p[..4])..];
  }

  lemma Be32Bytewise(w: seq<byte>)
    requires |w| == 4
    ensures Be32Bytes(Be32(w)) == w
  {
    var a, b, c, d := w[0] as int, w[1] as int, w[2] as int, w[3] as int;
    var n := Be32(w);
    assert n == ((a * 0x100 + b) * 0x100 + c) * 0x100 + d;
    assert n / 0x100 == (a * 0x100 + b) * 0x100 + c && n % 0x100 == d;
    assert n / 0x1_0000 == n / 0x100 / 0x100 == a * 0x100 + b;
    assert n / 0x100_0000 == n / 0x1_0000 / 0x100 == a;
  }

  lemma BrokenSaysNothing(e: Diagnostic, p: seq<byte>)
    requires Broken(p)
    ensures ExtensionEvents(e, p) == []
  {
    if DiagnosticString(p).ok && DiagnosticString(DiagnosticString(p).rest).ok { ReadsAsExtension(p); }
  }

  /** Of extensions and a broken rest, cut after `room` bytes, those are reported that lie before the cut. */
  lemma {:induction false} ExtensionsAreTold(e: Diagnostic, extensions: seq<Extension>, rest: seq<byte>, room: nat)
    requires Broken(rest) && room <= |AllExtensionBytes(extensions) + rest|
    ensures ExtensionEvents(e, (AllExtensionBytes(extensions) + rest)[..room]) ==
      ExtensionReports(e, extensions[..Fitting(extensions, room)])
    decreases |extensions|
  {
    if extensions == [] {
      NothingIsTold(e, rest, room);
    } else {
      var n := |ExtensionBytes(extensions[0])|;
      FirstComesFirst(extensions, rest);
      if n <= room { ExtensionsAreTold(e, extensions[1..], rest, room - n); }
      NextIsTold(e, extensions, AllExtensionBytes(extensions[1..]) + rest, room);
    }
  }

  lemma NextIsTold(e: Diagnostic, extensions: seq<Extension>, more: seq<byte>, room: nat)
    requires extensions != []
    requires var n := |ExtensionBytes(extensions[0])|;
      && room <= n + |more|
      && (n <= room ==>
            ExtensionEvents(e, more[..room - n]) ==
            ExtensionReports(e, extensions[1..][..Fitting(extensions[1..], room - n)]))
    ensures ExtensionEvents(e, (ExtensionBytes(extensions[0]) + more)[..room]) ==
      ExtensionReports(e, extensions[..Fitting(extensions, room)])
  {
    var x := extensions[0];
    if |ExtensionBytes(x)| > room {
      HalfIsNotTold(e, x, more, room);
    } else {
      var left := room - |ExtensionBytes(x)|;
      FirstIsTold(e, extensions, more[..left], Fitting(extensions[1..], left));
      CutBeyond(ExtensionBytes(x), more, room);
    }
  }

  lemma HalfIsNotTold(e: Diagnostic, x: Extension, more: seq<byte>, room: nat)
    requires room < |ExtensionBytes(x)|
    ensures ExtensionEvents(e, (ExtensionBytes(x) + more)[..room]) == []
  {
    HalfIsBroken(x, more, room);
    BrokenSaysNothing(e, (ExtensionBytes(x) + more)[..room]);
  }

  lemma NothingIsTold(e: Diagnostic, rest: seq<byte>, room: nat)
    requires Broken(rest) && room <= |rest|
    ensures ([] + rest)[..room] == rest[..room] && ExtensionEvents(e, rest[..room]) == []
  {
    CutIsBroken(rest, room);
    BrokenSaysNothing(e, rest[..room]);
  }

  lemma FirstComesFirst(extensions: seq<Extension>, rest: seq<byte>)
    requires extensions != []
    ensures AllExtensionBytes(extensions) + rest ==
      ExtensionBytes(extensions[0]) + (AllExtensionBytes(extensions[1..]) + rest)
  {
  }

  lemma FirstIsTold(e: Diagnostic, extensions: seq<Extension>, cut: seq<byte>, k: nat)
    requires k < |extensions|
    requires ExtensionEvents(e, cut) == ExtensionReports(e, extensions[1..][..k])
    ensures ExtensionEvents(e, ExtensionBytes(extensions[0]) + cut) == ExtensionReports(e, extensions[..1 + k])
  {
    ExtensionReads(e, extensions[0], cut);
    FirstReport(e, extensions, k);
  }

  lemma CutBeyond(a: seq<byte>, b: seq<byte>, room: nat)
    requires |a| <= room <= |a| + |b|
    ensures (a + b)[..room] == a + b[..room - |a|]
  {
  }

  lemma FirstReport(e: Diagnostic, extensions: seq<Extension>, k: nat)
    requires extensions != [] && k < |extensions|
    ensures ExtensionReports(e, extensions[..1 + k]) ==
      [e.(kind := ExtensionPair, extension := extensions[0].name, extensionVersion := extensions[0].data)] +
      ExtensionReports(e, extensions[1..][..k])
  {
    assert extensions[..1 + k][1..] == extensions[1..][..k];
  }

  lemma CutIsBroken(p: seq<byte>, room: nat)
    requires Broken(p) && room <= |p|
    ensures Broken(p[..room])
  {
    forall x: Extension ensures !Begins(x, p[..room]) {
      assert Begins(x, p[..room]) ==> Begins(x, p);
    }
  }

  /** A beginning of one extension holds no other. */
  lemma HalfIsBroken(x: Extension, more: seq<byte>, room: nat)
    requires room < |ExtensionBytes(x)|
    ensures Broken((ExtensionBytes(x) + more)[..room])
  {
    var p := ExtensionBytes(x) + more;
    forall y: Extension ensures Begins(y, p) ==> y == x {
      if Begins(y, p) {
        assert p == ExtensionBytes(y) + p[|ExtensionBytes(y)|..];
        OneExtension(x, more, y, p[|ExtensionBytes(y)|..]);
      }
    }
    forall y: Extension ensures !Begins(y, p[..room]) {
      assert Begins(y, p[..room]) ==> Begins(y, p);
    }
  }

  /** Bytes begin with one extension only. */
  lemma OneExtension(x: Extension, a: seq<byte>, y: Extension, b: seq<byte>)
    requires ExtensionBytes(x) + a == ExtensionBytes(y) + b
    ensures x == y
  {
    assert ExtensionBytes(x) + a == StringBytes(x.name) + (StringBytes(x.data) + a);
    assert ExtensionBytes(y) + b == StringBytes(y.name) + (StringBytes(y.data) + b);
    StringReads(x.name, StringBytes(x.data) + a);
    StringReads(y.name, StringBytes(y.data) + b);
    StringReads(x.data, a);
    StringReads(y.data, b);
  }

  lemma OfferIsTold(send: bool, m: Message)
    requires Valid(m) && m.Offer?
    ensures BodyEvents(send, Body(m)) == Told(send, m)
  {
    var all := AllExtensionBytes(m.extensions) + m.rest;
    var p := [2] + Be32Bytes(m.version) + all;
    VersionIsTold(send, m.version, all);
    var v := Bare(Version, 2, |p|, 2).(protocolVersion := m.version, truncated := |p| > 16384);
    PairsAreTold(v, m.extensions, m.rest, 16384 - 5);
    assert Min(16384, |p|) - 5 == Min(16384 - 5, |all|);
  }

  lemma PairsAreTold(v: Diagnostic, extensions: seq<Extension>, rest: seq<byte>, limit: nat)
    requires Broken(rest)
    ensures var all := AllExtensionBytes(extensions) + rest;
      ExtensionEvents(v, all[..Min(limit, |all|)]) == ExtensionReports(v, extensions[..Fitting(extensions, limit)])
  {
    var all := AllExtensionBytes(extensions) + rest;
    ExtensionsAreTold(v, extensions, rest, Min(limit, |all|));
    if |all| < limit { AllFit(extensions, |all|, limit); }
  }

  lemma VersionIsTold(send: bool, version: Word, all: seq<byte>)
    ensures var p := [2] + Be32Bytes(version) + all;
      var e := Bare(Packet, 3, |p|, 2).(protocolVersion := version);
      var v := e.(kind := Version, level := 2, truncated := |p| > 16384);
      BodyEvents(send, p) == [e, v] + ExtensionEvents(v, all[..Min(16384, |p|) - 5])
  {
    var p := [2] + Be32Bytes(version) + all;
    var n := Min(16384, |p|);
    HeaderReads(2, version, all);
    CutHeader(p, n);
    assert p[..n][5..] == all[..n - 5];
    PrefixIsTold(send, |p|, p[..n], version, all[..n - 5]);
  }

  lemma PrefixIsTold(send: bool, length: nat, q: seq<byte>, version: nat, pairs: seq<byte>)
    requires |q| >= 5 && q[0] == 2 && Be32(q[1..5]) == version && q[5..] == pairs
    ensures var e := Bare(Packet, 3, length, 2).(protocolVersion := version);
      var v := e.(kind := Version, level := 2, truncated := length > |q|);
      ReportEvents(send, length, q) == [e, v] + ExtensionEvents(v, pairs)
  {
  }

  /** Room beyond the encoding changes nothing. */
  lemma {:induction false} AllFit(extensions: seq<Extension>, room: nat, more: nat)
    requires |AllExtensionBytes(extensions)| <= room <= more
    ensures Fitting(extensions, room) == Fitting(extensions, more)
    decreases |extensions|
  {
    if extensions != [] {
      var n := |ExtensionBytes(extensions[0])|;
      AllFit(extensions[1..], room - n, more - n);
    }
  }

  /** Every message is reported as its fields say. */
  lemma MessageIsTold(send: bool, m: Message)
    requires Valid(m)
    ensures BodyEvents(send, Body(m)) == Told(send, m)
  {
    match m
    case Init(_, _) => InitIsTold(send, m);
    case Offer(_, _, _) => OfferIsTold(send, m);
    case Outcome(_, _, _) => OutcomeIsTold(send, m);
    case Numbered(_, _, _) => NumberedIsTold(send, m);
    case Naming(_, _, _, _) => NamingIsTold(send, m);
    case _ => ShortIsTold(send, m);
  }

  // ---------- Whole streams ----------

  lemma {:induction false} SplitExtensions(p: seq<byte>) returns (extensions: seq<Extension>, rest: seq<byte>)
    ensures Broken(rest) && p == AllExtensionBytes(extensions) + rest
    decreases |p|
  {
    if Broken(p) {
      extensions, rest := [], p;
      assert p == [] + p;
    } else {
      var x: Extension :| Begins(x, p);
      var later := p[|ExtensionBytes(x)|..];
      Be32RoundTrip(|x.name|);
      var more;
      more, rest := SplitExtensions(later);
      extensions := [x] + more;
      assert extensions[1..] == more && p == ExtensionBytes(x) + later;
    }
  }

  lemma WordIsThere(p: seq<byte>)
    requires |p| >= 4
    ensures p == Be32Bytes(Be32(p[..4])) + p[4..]
  {
    Be32Bytewise(p[..4]);
  }

  /** Nothing can arrive that is not one of these messages. */
  lemma EveryBodyIsAMessage(body: seq<byte>) returns (m: Message)
    ensures Valid(m) && Body(m) == body
  {
    if body == [] {
      return Nothing;
    }
    var kind, rest := body[0], body[1..];
    assert body == [kind] + rest;
    if !IsKnown(kind) {
      return Foreign(kind, rest);
    }
    if |rest| < 4 {
      return Stub(kind, rest);
    }
    m := LongBody(kind, rest);
  }

  lemma LongBody(kind: byte, rest: seq<byte>) returns (m: Message)
    requires IsKnown(kind) && |rest| >= 4
    ensures Valid(m) && Body(m) == [kind] + rest
  {
    WordIsThere(rest);
    var first, more := Be32(rest[..4]), rest[4..];
    Assoc([kind], Be32Bytes(first), more);
    if kind == 1 {
      m := Init(first, more);
    } else if kind == 2 {
      var extensions, broken := SplitExtensions(more);
      m := Offer(first, extensions, broken);
    } else {
      m := NumberedBody(kind, first, more);
    }
  }

  lemma NumberedBody(kind: byte, id: Word, more: seq<byte>) returns (m: Message)
    requires Names(kind) || Plain(kind) || kind == 101
    ensures Valid(m) && Body(m) == [kind] + Be32Bytes(id) + more
  {
    if Plain(kind) || |more| < 4 {
      m := Numbered(kind, id, more);
    } else {
      WordIsThere(more);
      var second := Be32(more[..4]);
      m := if kind == 101 then Outcome(id, second, more[4..]) else Naming(kind, id, second, more[4..]);
    }
  }

  ghost function Bodies(ms: seq<Message>): (r: seq<seq<byte>>)
    requires forall m :: m in ms ==> Valid(m)
    ensures |r| == |ms| && forall i :: 0 <= i < |ms| ==> r[i] == Body(ms[i])
  {
    if ms == [] then [] else [Body(ms[0])] + Bodies(ms[1..])
  }

  ghost function AllTold(send: bool, ms: seq<Message>): seq<Diagnostic>
    requires forall m :: m in ms ==> Valid(m)
  {
    if ms == [] then [] else Told(send, ms[0]) + AllTold(send, ms[1..])
  }

  lemma {:induction false} BodiesAreTold(send: bool, ms: seq<Message>)
    requires forall m :: m in ms ==> Valid(m)
    ensures EventsOf(send, Bodies(ms)) == AllTold(send, ms)
  {
    if ms != [] {
      MessageIsTold(send, ms[0]);
      BodiesAreTold(send, ms[1..]);
    }
  }

  /** However the messages of a stream are cut into chunks, exactly what their fields say is reported, in order. */
  lemma MessagesAreTold(send: bool, ms: seq<Message>, bodies: seq<seq<byte>>, chunks: seq<seq<byte>>)
    requires (forall m :: m in ms ==> Valid(m)) && bodies == Bodies(ms)
    requires (forall b :: b in bodies ==> |b| < 0x1_0000_0000) && Concat(chunks) == Encode(bodies)
    ensures FeedAll(send, [], chunks) == (AllTold(send, ms), [])
  {
    ChunksDoNotMatter(send, [], chunks);
    assert [] + Concat(chunks) == Concat(chunks);
    FramesOfEncode(bodies);
    BodiesAreTold(send, ms);
  }
}
