/**
 The session's input decoder: raw bytes kept until a whole event can be decoded, and bracketed pastes kept whole until
 their closing marker. Decoding a single sequence is a parameter.
 */
module EditorDecoder {
  import opened Prelude

  datatype Event =
    | Key(code: int)
    | PasteStart
    | Paste(content: seq<byte>)
    | Multi(events: seq<Event>)
    | UnknownSequence
    | Report(code: int)

  /** How many bytes the first sequence takes, zero if it is not complete, and the event it stands for. */
  datatype Parser = Parser(decode: seq<byte> -> (nat, Event), fullRune: seq<byte> -> bool)

  ghost predicate Sound(p: Parser) {
    forall b :: p.decode(b).0 <= |b|
  }

  const PASTE_END: seq<byte> := [0x1b, 0x5b, 0x32, 0x30, 0x31, 0x7e]

  datatype State = State(buffer: seq<byte>, paste: bool, pending: seq<Event>)

  // ---------- Searching ----------

  /** The first position at or after `from` where `mark` occurs. */
  function IndexOf(text: seq<byte>, mark: seq<byte>, from: nat := 0): (r: Option<nat>)
    ensures r.Some? ==> from <= r.value && r.value + |mark| <= |text|
    decreases |text| - from
  {
    if from + |mark| > |text| then None
    else if text[from..from + |mark|] == mark then Some(from)
    else IndexOf(text, mark, from + 1)
  }

  predicate OccursAt(text: seq<byte>, mark: seq<byte>, k: nat) {
    k + |mark| <= |text| && text[k..k + |mark|] == mark
  }

  lemma {:induction false} IndexIsFirst(text: seq<byte>, mark: seq<byte>, from: nat)
    ensures match IndexOf(text, mark, from)
      case Some(k) => from <= k && OccursAt(text, mark, k) && forall j :: from <= j < k ==> !OccursAt(text, mark, j)
      case None => forall j :: from <= j ==> !OccursAt(text, mark, j)
    decreases |text| - from
  {
    if from + |mark| <= |text| && !OccursAt(text, mark, from) {
      IndexIsFirst(text, mark, from + 1);
    }
  }

  lemma OccursIsStable(text: seq<byte>, more: seq<byte>, mark: seq<byte>, k: nat)
    requires k + |mark| <= |text|
    ensures OccursAt(text + more, mark, k) <==> OccursAt(text, mark, k)
  {
    assert (text + more)[k..k + |mark|] == text[k..k + |mark|];
  }

  /** What has been found stays the first occurrence however much text follows. */
  lemma IndexIsStable(text: seq<byte>, more: seq<byte>, mark: seq<byte>)
    requires IndexOf(text, mark).Some?
    ensures IndexOf(text + more, mark) == IndexOf(text, mark)
  {
    IndexIsFirst(text, mark, 0);
    IndexIsFirst(text + more, mark, 0);
    var k := IndexOf(text, mark).value;
    OccursIsStable(text, more, mark, k);
    var k' := IndexOf(text + more, mark).value;
    if k' < k {
      OccursIsStable(text, more, mark, k');
    }
  }

  lemma SplitAround(text: seq<byte>, mark: seq<byte>, k: nat)
    requires OccursAt(text, mark, k)
    ensures text == text[..k] + mark + text[k + |mark|..]
  {
  }

  /** Around an occurrence, more text only adds to what follows. */
  lemma SplitIsStable(text: seq<byte>, more: seq<byte>, mark: seq<byte>, k: nat)
    requires OccursAt(text, mark, k)
    ensures (text + more)[..k] == text[..k] && (text + more)[k + |mark|..] == text[k + |mark|..] + more
  {
  }

  // ---------- The next event ----------

  /** An introducer of a structured sequence followed by nothing but parameter bytes. */
  predicate Incomplete(buffer: seq<byte>) {
    && |buffer| >= 2 && buffer[0] == 0x1b && (buffer[1] == 0x5b || buffer[1] == 0x4f)
    && forall i :: 2 <= i < |buffer| ==> 0x20 <= buffer[i] <= 0x3f
  }

  /** The sequence at the front of the buffer must wait for more bytes, or for the Escape timeout. */
  predicate MustWait(p: Parser, buffer: seq<byte>, expired: bool)
    requires buffer != []
  {
    || !p.fullRune(buffer)
    || p.decode(buffer).0 == 0
    || ((p.decode(buffer).1.UnknownSequence? || p.decode(buffer).0 <= 2) && Incomplete(buffer))
    || (!expired && (p.decode(buffer).1.UnknownSequence? || (buffer[0] == 0x1b && p.decode(buffer).0 <= 2)))
  }

  /** A piece of the raw input and what it was decoded to. */
  datatype Token = Sequence(bytes: seq<byte>, event: Event) | Opening(bytes: seq<byte>) | Pasted(content: seq<byte>)

  /** The sequence at the front of the buffer. */
  function Front(p: Parser, d: State): Token
    requires Sound(p)
  {
    var (n, event) := p.decode(d.buffer);
    if event.PasteStart? then Opening(d.buffer[..n]) else Sequence(d.buffer[..n], event)
  }

  /** What is left when it has been taken. */
  function Behind(p: Parser, d: State): (d': State)
    requires Sound(p)
    ensures |d'.buffer| == |d.buffer| - p.decode(d.buffer).0
  {
    var (n, event) := p.decode(d.buffer);
    State(d.buffer[n..], event.PasteStart?, if event.Multi? then event.events else [])
  }

  /** An opening, or a group of events, gives no event by itself. */
  predicate GoesOn(p: Parser, d: State) {
    p.decode(d.buffer).1.PasteStart? || p.decode(d.buffer).1.Multi?
  }

  /** The next event, if there is one. */
  function Next(p: Parser, d: State, expired: bool): (r: (State, Option<Event>))
    requires Sound(p)
    decreases |d.buffer|
  {
    if d.pending != [] then (d.(pending := d.pending[1..]), Some(d.pending[0]))
    else if d.buffer == [] then (d, None)
    else if d.paste then
      match IndexOf(d.buffer, PASTE_END)
      case None => (d, None)
      case Some(k) =>
        IndexIsFirst(d.buffer, PASTE_END, 0);
        (d.(buffer := d.buffer[k + |PASTE_END|..], paste := false), Some(Paste(d.buffer[..k])))
    else if MustWait(p, d.buffer, expired) then (d, None)
    else if GoesOn(p, d) then Next(p, Behind(p, d), expired)
    else (Behind(p, d), Some(p.decode(d.buffer).1))
  }

  // ---------- Nothing is lost in decoding ----------

  function TokenBytes(t: Token): seq<byte> {
    match t case Sequence(bytes, _) => bytes case Opening(bytes) => bytes case Pasted(content) => content + PASTE_END
  }

  function TokenEvents(t: Token): seq<Event> {
    match t
    case Sequence(_, event) => if event.Multi? then event.events else [event]
    case Opening(_) => []
    case Pasted(content) => [Paste(content)]
  }

  function Bytes(tokens: seq<Token>): seq<byte> {
    if tokens == [] then [] else Bytes(tokens[..|tokens| - 1]) + TokenBytes(tokens[|tokens| - 1])
  }

  function Events(tokens: seq<Token>): seq<Event> {
    if tokens == [] then [] else Events(tokens[..|tokens| - 1]) + TokenEvents(tokens[|tokens| - 1])
  }

  lemma Unsnoc<T>(a: seq<T>, b: seq<T>)
    requires b != []
    ensures a + b == a + b[..|b| - 1] + [b[|b| - 1]]
  {
  }

  lemma BytesSnoc(a: seq<Token>, t: Token)
    ensures Bytes(a + [t]) == Bytes(a) + TokenBytes(t)
  {
    assert (a + [t])[..|a|] == a;
  }

  lemma {:induction false} BytesAppend(a: seq<Token>, b: seq<Token>)
    ensures Bytes(a + b) == Bytes(a) + Bytes(b)
    decreases |b|
  {
    if b == [] {
      assert a + b == a;
    } else {
      var init, t := b[..|b| - 1], b[|b| - 1];
      Unsnoc(a, b);
      BytesAppend(a, init);
      BytesSnoc(a + init, t);
      Assoc(Bytes(a), Bytes(init), TokenBytes(t));
    }
  }

  lemma EventsSnoc(a: seq<Token>, t: Token)
    ensures Events(a + [t]) == Events(a) + TokenEvents(t)
  {
    assert (a + [t])[..|a|] == a;
  }

  lemma {:induction false} EventsAppend(a: seq<Token>, b: seq<Token>)
    ensures Events(a + b) == Events(a) + Events(b)
    decreases |b|
  {
    if b == [] {
      assert a + b == a;
    } else {
      var init, t := b[..|b| - 1], b[|b| - 1];
      Unsnoc(a, b);
      EventsAppend(a, init);
      EventsSnoc(a + init, t);
      Assoc(Events(a), Events(init), TokenEvents(t));
    }
  }

  lemma TokensOfOne(t: Token)
    ensures Bytes([t]) == TokenBytes(t) && Events([t]) == TokenEvents(t)
  {
    assert [t][..0] == [];
  }

  /** The pieces that one call of `Next` takes off the buffer. */
  ghost function Taken(p: Parser, d: State, expired: bool): seq<Token>
    requires Sound(p)
    decreases |d.buffer|
  {
    if d.pending != [] || d.buffer == [] then []
    else if d.paste then
      match IndexOf(d.buffer, PASTE_END)
      case None => []
      case Some(k) =>
        IndexIsFirst(d.buffer, PASTE_END, 0);
        [Pasted(d.buffer[..k])]
    else if MustWait(p, d.buffer, expired) then []
    else if GoesOn(p, d) then [Front(p, d)] + Taken(p, Behind(p, d), expired)
    else [Front(p, d)]
  }

  function Given(out: Option<Event>): seq<Event> {
    match out case None => [] case Some(event) => [event]
  }

  /** What it means that nothing is lost between two states, an event given out, and the pieces taken. */
  predicate Conserved(d: State, d': State, out: Option<Event>, taken: seq<Token>) {
    && d.buffer == Bytes(taken) + d'.buffer
    && d.pending + Events(taken) == Given(out) + d'.pending
  }

  /** Bytes leave the buffer only as decoded pieces, and their events are given out or kept pending, in order. */
  lemma {:induction false} NextConserves(p: Parser, d: State, expired: bool)
    requires Sound(p)
    ensures var (d', out) := Next(p, d, expired); Conserved(d, d', out, Taken(p, d, expired))
    decreases |d.buffer|
  {
    if d.pending == [] && d.buffer != [] {
      if d.paste {
        PasteConserves(p, d, expired);
      } else if !MustWait(p, d.buffer, expired) {
        FrontAndBehind(p, d);
        if GoesOn(p, d) {
          var (d', out) := Next(p, Behind(p, d), expired);
          NextConserves(p, Behind(p, d), expired);
          FirstConserves(d, Behind(p, d), Front(p, d), d', out, Taken(p, Behind(p, d), expired));
        } else {
          TokensOfOne(Front(p, d));
        }
      }
    }
  }

  lemma FrontAndBehind(p: Parser, d: State)
    requires Sound(p)
    ensures d.buffer == TokenBytes(Front(p, d)) + Behind(p, d).buffer
    ensures TokenEvents(Front(p, d)) == if GoesOn(p, d) then Behind(p, d).pending else [p.decode(d.buffer).1]
    ensures Behind(p, d).paste == Front(p, d).Opening? && !Front(p, d).Pasted?
    ensures !GoesOn(p, d) ==> Behind(p, d).pending == [] && !Behind(p, d).paste
  {
  }

  lemma PasteNext(p: Parser, d: State, expired: bool, k: nat)
    requires Sound(p) && d.pending == [] && d.buffer != [] && d.paste && IndexOf(d.buffer, PASTE_END) == Some(k)
    ensures Next(p, d, expired) == (State(d.buffer[k + |PASTE_END|..], false, []), Some(Paste(d.buffer[..k])))
    ensures Taken(p, d, expired) == [Pasted(d.buffer[..k])]
  {
  }

  lemma PasteConserves(p: Parser, d: State, expired: bool)
    requires Sound(p) && d.pending == [] && d.buffer != [] && d.paste
    ensures var (d', out) := Next(p, d, expired); Conserved(d, d', out, Taken(p, d, expired))
  {
    if IndexOf(d.buffer, PASTE_END).Some? {
      var k := IndexOf(d.buffer, PASTE_END).value;
      PasteNext(p, d, expired, k);
      PastedConserves(d, k);
    }
  }

  lemma PastedConserves(d: State, k: nat)
    requires d.pending == [] && IndexOf(d.buffer, PASTE_END) == Some(k)
    ensures Conserved(
      d, State(d.buffer[k + |PASTE_END|..], false, []), Some(Paste(d.buffer[..k])), [Pasted(d.buffer[..k])])
  {
    IndexIsFirst(d.buffer, PASTE_END, 0);
    SplitAround(d.buffer, PASTE_END, k);
    TokensOfOne(Pasted(d.buffer[..k]));
  }

  lemma FirstConserves(
    d: State, d1: State, first: Token, d': State, out: Option<Event>, taken: seq<Token>)
    requires d.buffer == TokenBytes(first) + d1.buffer && d.pending == [] && d1.pending == TokenEvents(first)
    requires Conserved(d1, d', out, taken)
    ensures Conserved(d, d', out, [first] + taken)
  {
    TokensOfOne(first);
    BytesAppend([first], taken);
    EventsAppend([first], taken);
    Assoc(TokenBytes(first), Bytes(taken), d'.buffer);
  }

  // ---------- Pastes do not depend on how they arrive ----------

  function Flatten(chunks: seq<seq<byte>>): seq<byte> {
    if chunks == [] then [] else chunks[0] + Flatten(chunks[1..])
  }

  /**
   The first event of a decoder in a paste that is asked after every chunk, with any timeouts in between, together
   with all bytes not yet decoded at that moment: those in the buffer and those still to arrive.
   */
  function FirstEvent(p: Parser, d: State, chunks: seq<seq<byte>>, timeouts: seq<bool>): (Option<Event>, seq<byte>)
    requires Sound(p) && |timeouts| == |chunks|
    decreases |chunks|
  {
    if chunks == [] then (None, d.buffer)
    else
      var (d', out) := Next(p, d.(buffer := d.buffer + chunks[0]), timeouts[0]);
      if out.Some? then (out, d'.buffer + Flatten(chunks[1..]))
      else FirstEvent(p, d', chunks[1..], timeouts[1..])
  }

  /** A paste is all that comes before the first closing marker. */
  function WholePaste(all: seq<byte>): (Option<Event>, seq<byte>) {
    match IndexOf(all, PASTE_END)
    case None => (None, all)
    case Some(k) => (Some(Paste(all[..k])), all[k + |PASTE_END|..])
  }

  /** The event of a whole paste is the one `Next` gives as soon as the marker has arrived. */
  lemma PasteArrives(p: Parser, d: State, expired: bool, later: seq<byte>)
    requires Sound(p) && d.paste && d.pending == [] && IndexOf(d.buffer, PASTE_END).Some?
    ensures var (d', out) := Next(p, d, expired); out.Some? && (out, d'.buffer + later) == WholePaste(d.buffer + later)
  {
    IndexIsStable(d.buffer, later, PASTE_END);
    IndexIsFirst(d.buffer, PASTE_END, 0);
    SplitIsStable(d.buffer, later, PASTE_END, IndexOf(d.buffer, PASTE_END).value);
  }

  /** However a paste is cut into chunks, its event holds exactly the bytes before the first closing marker. */
  lemma {:induction false} PasteIsWhole(p: Parser, d: State, chunks: seq<seq<byte>>, timeouts: seq<bool>)
    requires Sound(p) && |timeouts| == |chunks|
    requires d.paste && d.pending == [] && IndexOf(d.buffer, PASTE_END) == None
    ensures var all := d.buffer + Flatten(chunks);
      FirstEvent(p, d, chunks, timeouts) == WholePaste(all)
    decreases |chunks|
  {
    var all := d.buffer + Flatten(chunks);
    if chunks == [] {
      assert all == d.buffer;
    } else {
      var buffer, later := d.buffer + chunks[0], Flatten(chunks[1..]);
      assert all == buffer + later;
      var (d', out) := Next(p, d.(buffer := buffer), timeouts[0]);
      if IndexOf(buffer, PASTE_END) == None {
        assert out == None && d' == d.(buffer := buffer);
        PasteIsWhole(p, d', chunks[1..], timeouts[1..]);
      } else {
        PasteArrives(p, d.(buffer := buffer), timeouts[0], later);
      }
    }
  }

  /** Two ways of cutting the same bytes give the same paste and leave the same bytes. */
  lemma PasteIgnoresChunks(
    p: Parser, d: State, chunks: seq<seq<byte>>, timeouts: seq<bool>, chunks': seq<seq<byte>>, timeouts': seq<bool>)
    requires Sound(p) && |timeouts| == |chunks| && |timeouts'| == |chunks'| && Flatten(chunks) == Flatten(chunks')
    requires d.paste && d.pending == [] && IndexOf(d.buffer, PASTE_END) == None
    ensures FirstEvent(p, d, chunks, timeouts) == FirstEvent(p, d, chunks', timeouts')
  {
    PasteIsWhole(p, d, chunks, timeouts);
    PasteIsWhole(p, d, chunks', timeouts');
  }

  // ---------- A key does not depend on how it arrives ----------

  /** An event that is given out as it is. */
  predicate Single(event: Event) {
    !event.UnknownSequence? && !event.PasteStart? && !event.Multi?
  }

  /** Whether an Escape alone is a key is decided by its timeout, and by nothing else. */
  lemma EscapeAwaitsTimeout(p: Parser, event: Event, expired: bool)
    requires Sound(p) && p.fullRune([0x1b]) && p.decode([0x1b]) == (1, event) && Single(event)
    ensures Next(p, State([0x1b], false, []), expired) ==
      if expired then (State([], false, []), Some(event)) else (State([0x1b], false, []), None)
  {
  }

  /** An introducer, parameter bytes, and a final byte. */
  predicate Structured(key: seq<byte>) {
    && |key| >= 3 && key[0] == 0x1b && (key[1] == 0x5b || key[1] == 0x4f)
    && (forall i :: 2 <= i < |key| - 1 ==> 0x20 <= key[i] <= 0x3f) && !(0x20 <= key[|key| - 1] <= 0x3f)
  }

  /** The parser knows the key, and takes no part of it for something else than its first two bytes. */
  ghost predicate Recognises(p: Parser, key: seq<byte>, event: Event) {
    && p.fullRune(key) && p.decode(key) == (|key|, event) && Single(event)
    && forall k :: 0 < k < |key| ==> p.decode(key[..k]).1.UnknownSequence? || p.decode(key[..k]).0 <= 2
  }

  /** A part of a key waits; if it is the Escape alone, as long as that has not timed out. */
  lemma PartOfKeyWaits(p: Parser, key: seq<byte>, event: Event, k: nat, expired: bool)
    requires Sound(p) && Structured(key) && Recognises(p, key, event) && k < |key| && (expired ==> k != 1)
    ensures Next(p, State(key[..k], false, []), expired) == (State(key[..k], false, []), None)
  {
    var part := key[..k];
    if k >= 2 {
      assert Incomplete(part);
    }
    if k > 0 {
      assert MustWait(p, part, expired);
    }
  }

  lemma WholeKeyIsGiven(p: Parser, key: seq<byte>, event: Event, expired: bool)
    requires Sound(p) && Structured(key) && Recognises(p, key, event)
    ensures Next(p, State(key, false, []), expired) == (State([], false, []), Some(event))
  {
    assert !MustWait(p, key, expired);
  }

  /** No timeout comes while exactly one byte has arrived, `k` of them before these chunks. */
  predicate Patient(k: nat, chunks: seq<seq<byte>>, timeouts: seq<bool>)
    requires |timeouts| == |chunks|
    decreases |chunks|
  {
    chunks != [] ==>
      var n := k + |chunks[0]|; (timeouts[0] ==> n != 1) && Patient(n, chunks[1..], timeouts[1..])
  }

  /**
   However a structured key is cut into chunks, and whatever timeouts there are except right after the Escape alone,
   it is decoded to its one event.
   */
  lemma {:induction false} SplitKeyStaysOne(
    p: Parser, key: seq<byte>, event: Event, k: nat, chunks: seq<seq<byte>>, timeouts: seq<bool>)
    requires Sound(p) && Structured(key) && Recognises(p, key, event) && k < |key| && Flatten(chunks) == key[k..]
    requires |timeouts| == |chunks| && Patient(k, chunks, timeouts)
    ensures FirstEvent(p, State(key[..k], false, []), chunks, timeouts) == (Some(event), [])
    decreases |chunks|
  {
    var n := k + |chunks[0]|;
    NextCut(key, k, chunks);
    if n < |key| {
      KeyGoesOn(p, key, event, k, chunks, timeouts);
      SplitKeyStaysOne(p, key, event, n, chunks[1..], timeouts[1..]);
    } else {
      KeyCompletes(p, key, event, k, chunks, timeouts);
    }
  }

  lemma NextCut(key: seq<byte>, k: nat, chunks: seq<seq<byte>>)
    requires k < |key| && Flatten(chunks) == key[k..]
    ensures chunks != [] && k + |chunks[0]| <= |key|
    ensures key[..k] + chunks[0] == key[..k + |chunks[0]|] && Flatten(chunks[1..]) == key[k + |chunks[0]|..]
  {
  }

  lemma KeyGoesOn(
    p: Parser, key: seq<byte>, event: Event, k: nat, chunks: seq<seq<byte>>, timeouts: seq<bool>)
    requires Sound(p) && Structured(key) && Recognises(p, key, event) && |timeouts| == |chunks| > 0
    requires k + |chunks[0]| < |key| && key[..k] + chunks[0] == key[..k + |chunks[0]|]
    requires timeouts[0] ==> k + |chunks[0]| != 1
    ensures FirstEvent(p, State(key[..k], false, []), chunks, timeouts) ==
      FirstEvent(p, State(key[..k + |chunks[0]|], false, []), chunks[1..], timeouts[1..])
  {
    PartOfKeyWaits(p, key, event, k + |chunks[0]|, timeouts[0]);
  }

  lemma KeyCompletes(
    p: Parser, key: seq<byte>, event: Event, k: nat, chunks: seq<seq<byte>>, timeouts: seq<bool>)
    requires Sound(p) && Structured(key) && Recognises(p, key, event) && |timeouts| == |chunks| > 0
    requires k < |key| && key[..k] + chunks[0] == key && Flatten(chunks[1..]) == []
    ensures FirstEvent(p, State(key[..k], false, []), chunks, timeouts) == (Some(event), [])
  {
    WholeKeyIsGiven(p, key, event, timeouts[0]);
    ChunkGives(p, State(key[..k], false, []), key, event, chunks, timeouts);
  }

  lemma ChunkGives(
    p: Parser, d: State, key: seq<byte>, event: Event, chunks: seq<seq<byte>>, timeouts: seq<bool>)
    requires Sound(p) && |timeouts| == |chunks| > 0 && d.buffer + chunks[0] == key && Flatten(chunks[1..]) == []
    requires Next(p, d.(buffer := key), timeouts[0]) == (State([], false, []), Some(event))
    ensures FirstEvent(p, d, chunks, timeouts) == (Some(event), [])
  {
    assert State([], false, []).buffer + Flatten(chunks[1..]) == [];
  }

  // ---------- The decoder object ----------

  class Decoder {
    var buffer: seq<byte>
    var paste: bool
    var pending: seq<Event>

    function View(): State
      reads this
    {
      State(buffer, paste, pending)
    }

    constructor ()
      ensures View() == State([], false, [])
    {
      buffer, paste, pending := [], false, [];
    }

    method Append(chunk: seq<byte>)
      modifies this
      ensures View() == old(View()).(buffer := old(buffer) + chunk)
    {
      buffer := buffer + chunk;
    }

    method NextEvent(p: Parser, expired: bool) returns (out: Option<Event>)
      requires Sound(p)
      modifies this
      ensures (View(), out) == Next(p, old(View()), expired)
      decreases |buffer|
    {
      if |pending| > 0 {
        out := Some(pending[0]);
        pending := pending[1..];
        return;
      }
      while |buffer| > 0
        invariant pending == []
        invariant Next(p, View(), expired) == Next(p, old(View()), expired)
        invariant |buffer| <= |old(buffer)|
        decreases |buffer|
      {
        if paste {
          var index := IndexOf(buffer, PASTE_END);
          if index == None {
            return None;
          }
          IndexIsFirst(buffer, PASTE_END, 0);
          out := Some(Paste(buffer[..index.value]));
          buffer := buffer[index.value + |PASTE_END|..];
          paste := false;
          return;
        }
        if !p.fullRune(buffer) {
          return None;
        }
        var (n, event) := p.decode(buffer);
        if n == 0 {
          return None;
        }
        var unknown := event.UnknownSequence?;
        if (unknown || n <= 2) && Incomplete(buffer) {
          return None;
        }
        if !expired && (unknown || (buffer[0] == 0x1b && n <= 2)) {
          return None;
        }
        buffer := buffer[n..];
        if event.PasteStart? {
          paste := true;
        } else if event.Multi? {
          pending := pending + event.events;
          assert pending == event.events;
          ghost var here := View();
          out := NextEvent(p, expired);
          assert (View(), out) == Next(p, here, expired);
          return;
        } else {
          return Some(event);
        }
      }
      return None;
    }
  }
}
