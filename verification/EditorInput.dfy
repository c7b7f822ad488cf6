/**
 Delivery of decoded input to a sequence of prompts. For each prompt a reader, a pump and a program run concurrently;
 a program may quit between receiving an event and acting on it, and what it did not consume must reach the next one.
 */
module EditorInput {
  import opened Prelude
  import opened EditorDecoder

  datatype Message = Input(event: Event) | EndOfInput

  datatype Receipt = Receipt(consumed: bool, finished: bool)

  datatype Pump =
    | Polling
    | Asking
    | Waiting
    | Holding(event: Event)
    | Delivering(event: Event)
    | HoldingEnd
    | DeliveringEnd
    | Draining
    | Exited

  /** The reader of raw input, with the chunk it has in hand. */
  datatype Reader = Reader(held: seq<byte>, reading: bool, eof: bool)

  /** The program of a prompt: whether it runs, whether its model is done, and the delivery it has not acted on. */
  datatype Program = Program(
    running: bool, done: bool, mailbox: Option<Message>, receipt: Option<Receipt>, stopped: bool)

  /**
   All bytes read, the pieces decoded from them, the events consumed and, for each of these, the number of the prompt
   that consumed it.
   */
  datatype History = History(raw: seq<byte>, tokens: seq<Token>, consumed: seq<Event>, consumers: seq<nat>)

  datatype Sys = Sys(
    decoder: State, ended: bool, expired: bool, pump: Pump, reader: Reader, program: Program, prompt: nat,
    history: History)

  datatype Act =
    | Read(chunk: seq<byte>)
    | StopReading(atEnd: bool)
    | TakeChunk
    | ChunksClosed
    | Timeout
    | SeeStop
    | SeeNoStop
    | Poll
    | Post                      // an event that is no keyboard input goes straight to the program
    | Refuse
    | Send
    | Update(finishes: bool)
    | Quit
    | ProgramReturns
    | CloseStopped
    | TakeReceipt
    | GiveUp
    | EndDelivered
    | Drained
    | NextPrompt

  predicate Keyboard(event: Event) {
    event.Key? || event.Paste? || event.PasteStart?
  }

  /** With `careful`, the stop signal is given only after the program has returned. */
  predicate Enabled(s: Sys, a: Act, careful: bool) {
    match a
    case Read(chunk) => s.reader.reading && s.reader.held == [] && chunk != []
    case StopReading(_) => s.reader.reading && s.reader.held == []
    case TakeChunk => (s.pump.Waiting? || s.pump.Draining?) && s.reader.held != []
    case ChunksClosed => s.pump.Waiting? && !s.reader.reading && s.reader.held == []
    case Timeout => s.pump.Waiting?
    case SeeStop => s.pump.Polling? || s.pump.Waiting?   // also when the context is done
    case SeeNoStop => s.pump.Polling? && !s.program.stopped
    case Poll => s.pump.Asking?
    case Post => s.pump.Holding? && !Keyboard(s.pump.event)
    case Refuse => s.program.stopped && ((s.pump.Holding? && Keyboard(s.pump.event)) || s.pump.HoldingEnd?)
    case Send => (s.pump.Holding? && Keyboard(s.pump.event)) || s.pump.HoldingEnd?
    case Update(_) => s.program.running && s.program.mailbox.Some?
    case Quit => s.program.running
    case ProgramReturns => s.program.running
    case CloseStopped => !s.program.stopped && (careful ==> !s.program.running)
    case TakeReceipt => s.pump.Delivering? && s.program.receipt.Some?
    case GiveUp => s.pump.Delivering? && s.program.stopped && s.program.receipt.None?
    case EndDelivered => s.pump.DeliveringEnd? && (s.program.receipt.Some? || s.program.stopped)
    case Drained => s.pump.Draining? && !s.reader.reading && s.reader.held == []
    case NextPrompt => !s.program.running && s.program.stopped && s.pump.Exited?
  }

  function GivenBack(s: Sys, event: Event): Sys {
    s.(decoder := s.decoder.(pending := [event] + s.decoder.pending), pump := Draining)
  }

  function Consuming(h: History, event: Event, prompt: nat): History {
    h.(consumed := h.consumed + [event], consumers := h.consumers + [prompt])
  }

  ghost function Polled(p: Parser, s: Sys): Sys
    requires Sound(p)
  {
    var (d, out) := Next(p, s.decoder, s.expired);
    Decoded(s, d, out, Taken(p, s.decoder, s.expired))
  }

  function Decoded(s: Sys, d: State, out: Option<Event>, taken: seq<Token>): Sys {
    s.(decoder := d,
       history := s.history.(tokens := s.history.tokens + taken),
       pump := match out case Some(event) => Holding(event) case None => if s.ended then HoldingEnd else Waiting)
  }

  function ChunkTaken(s: Sys): Sys {
    var s' := s.(decoder := s.decoder.(buffer := s.decoder.buffer + s.reader.held), reader := s.reader.(held := []));
    if s.pump.Draining? then s' else s'.(expired := false, pump := Polling)
  }

  function Sent(s: Sys): Sys {
    var m := if s.pump.Holding? then Input(s.pump.event) else EndOfInput;
    s.(pump := if s.pump.Holding? then Delivering(s.pump.event) else DeliveringEnd,
       program := s.program.(receipt := None, mailbox := if s.program.running then Some(m) else None))
  }

  /** The model's Update on a delivery: a model that is done consumes nothing. */
  function Updated(s: Sys, finishes: bool): Sys
    requires s.program.mailbox.Some?
  {
    if s.program.done then s.(program := s.program.(mailbox := None, receipt := Some(Receipt(false, false))))
    else
      match s.program.mailbox.value
      case Input(event) =>
        s.(program := s.program.(mailbox := None, done := finishes, receipt := Some(Receipt(true, finishes))),
           history := Consuming(s.history, event, s.prompt))
      case EndOfInput => s.(program := s.program.(mailbox := None, done := true, receipt := Some(Receipt(true, true))))
  }

  ghost function After(p: Parser, s: Sys, a: Act, careful: bool): Sys
    requires Sound(p) && Enabled(s, a, careful)
  {
    match a
    case Read(chunk) => s.(reader := s.reader.(held := chunk), history := s.history.(raw := s.history.raw + chunk))
    case StopReading(atEnd) => s.(reader := s.reader.(reading := false, eof := atEnd))
    case TakeChunk => ChunkTaken(s)
    case ChunksClosed =>
      if s.reader.eof then s.(ended := true, expired := true, pump := Polling) else s.(pump := Draining)
    case Timeout => s.(expired := true, pump := Polling)
    case SeeStop => s.(pump := Draining)
    case SeeNoStop => s.(pump := Asking)
    case Poll => Polled(p, s)
    case Post => s.(pump := Polling, history := Consuming(s.history, s.pump.event, s.prompt))
    case Refuse => if s.pump.Holding? then GivenBack(s, s.pump.event) else s.(pump := Draining)
    case Send => Sent(s)
    case Update(finishes) => Updated(s, finishes)
    case Quit => s.(program := s.program.(done := true))
    case ProgramReturns => s.(program := s.program.(running := false, mailbox := None))
    case CloseStopped => s.(program := s.program.(stopped := true))
    case TakeReceipt =>
      if !s.program.receipt.value.consumed then GivenBack(s, s.pump.event)
      else s.(pump := if s.program.receipt.value.finished then Draining else Polling)
    case GiveUp => GivenBack(s, s.pump.event)
    case EndDelivered => s.(pump := Draining)
    case Drained => s.(ended := s.ended || s.reader.eof, pump := Exited)
    case NextPrompt =>
      s.(program := Program(true, false, None, None, false), expired := false, pump := Polling,
         reader := Reader([], true, false), prompt := s.prompt + 1)
  }

  predicate Init(s: Sys) {
    s == Sys(State([], false, []), false, false, Polling, Reader([], true, false),
      Program(true, false, None, None, false), 0, History([], [], [], []))
  }

  ghost predicate Run(p: Parser, states: seq<Sys>, acts: seq<Act>, careful: bool)
    requires Sound(p)
  {
    && |states| == |acts| + 1
    && Init(states[0])
    && forall i {:trigger acts[i]} :: 0 <= i < |acts| ==>
         Enabled(states[i], acts[i], careful) && states[i + 1] == After(p, states[i], acts[i], careful)
  }

  // ---------- Invariant ----------

  ghost predicate InOrder<T>(all: seq<T>, first: seq<T>, second: seq<T>, third: seq<T>) {
    all == first + (second + third)
  }

  /** The event the pump holds that no model has consumed. */
  function InHand(s: Sys): seq<Event> {
    match s.pump
    case Holding(event) => [event]
    case Delivering(event) => if s.program.receipt.Some? && s.program.receipt.value.consumed then [] else [event]
    case _ => []
  }

  /** Every event decoded was consumed, or is in the pump's hand, or is pending, in this order and only once. */
  ghost predicate EventsKept(h: History, hand: seq<Event>, pending: seq<Event>) {
    InOrder(Events(h.tokens), h.consumed, hand, pending)
  }

  /** Every byte read was decoded, or is buffered, or is in the reader's hand. */
  ghost predicate BytesKept(h: History, buffer: seq<byte>, held: seq<byte>) {
    InOrder(h.raw, Bytes(h.tokens), buffer, held)
  }

  predicate Protocol(pump: Pump, r: Reader, g: Program) {
    && (g.stopped ==> !g.running)
    && (!g.running ==> g.mailbox == None)
    && (g.mailbox.Some? ==>
          && g.receipt == None
          && match g.mailbox.value
             case Input(event) => pump == Delivering(event)
             case EndOfInput => pump == DeliveringEnd)
    && (pump.Exited? ==> r.held == [] && !r.reading)
  }

  predicate ByPrompt(h: History, prompt: nat) {
    && |h.consumers| == |h.consumed|
    && (forall i :: 0 <= i < |h.consumers| ==> h.consumers[i] <= prompt)
    && (forall i, j :: 0 <= i < j < |h.consumers| ==> h.consumers[i] <= h.consumers[j])
  }

  ghost predicate Inv(s: Sys) {
    && EventsKept(s.history, InHand(s), s.decoder.pending)
    && BytesKept(s.history, s.decoder.buffer, s.reader.held)
    && Protocol(s.pump, s.reader, s.program)
    && ByPrompt(s.history, s.prompt)
  }

  /** An event in hand may be consumed or given back without any change to the order. */
  lemma EventMoves(h: History, event: Event, pending: seq<Event>, prompt: nat)
    requires EventsKept(h, [event], pending)
    ensures EventsKept(Consuming(h, event, prompt), [], pending)
    ensures EventsKept(h, [], [event] + pending)
  {
    assert [] + pending == pending && [] + ([event] + pending) == [event] + pending;
    Assoc(h.consumed, [event], pending);
  }

  lemma BytesMove(
    all: seq<byte>, done: seq<byte>, buffer: seq<byte>, held: seq<byte>, taken: seq<byte>, rest: seq<byte>)
    requires InOrder(all, done, buffer, held) && buffer == taken + rest
    ensures InOrder(all, done + taken, rest, held)
  {
    Assoc(taken, rest, held);
    Assoc(done, taken, rest + held);
  }

  lemma EventsArrive(
    all: seq<Event>, consumed: seq<Event>, pending: seq<Event>, taken: seq<Event>, given: seq<Event>,
    pending': seq<Event>)
    requires InOrder(all, consumed, [], pending) && pending + taken == given + pending'
    ensures InOrder(all + taken, consumed, given, pending')
  {
    assert [] + pending == pending;
    Assoc(consumed, pending, taken);
  }

  lemma ChunkArrives(h: History, buffer: seq<byte>, chunk: seq<byte>)
    requires BytesKept(h, buffer, [])
    ensures BytesKept(h.(raw := h.raw + chunk), buffer, chunk)
  {
    assert buffer + [] == buffer;
    Assoc(Bytes(h.tokens), buffer, chunk);
  }

  lemma ChunkMoves(h: History, buffer: seq<byte>, chunk: seq<byte>)
    requires BytesKept(h, buffer, chunk)
    ensures BytesKept(h, buffer + chunk, [])
  {
    assert buffer + chunk + [] == buffer + chunk;
  }

  lemma Decoding(h: History, d: State, held: seq<byte>, taken: seq<Token>, d': State, out: Option<Event>)
    requires EventsKept(h, [], d.pending) && BytesKept(h, d.buffer, held) && Conserved(d, d', out, taken)
    ensures EventsKept(h.(tokens := h.tokens + taken), Given(out), d'.pending)
    ensures BytesKept(h.(tokens := h.tokens + taken), d'.buffer, held)
  {
    BytesAppend(h.tokens, taken);
    BytesMove(h.raw, Bytes(h.tokens), d.buffer, held, Bytes(taken), d'.buffer);
    EventsAppend(h.tokens, taken);
    EventsArrive(Events(h.tokens), h.consumed, d.pending, Events(taken), Given(out), d'.pending);
  }

  lemma DecodedKeeps(s: Sys, d: State, out: Option<Event>, taken: seq<Token>)
    requires Inv(s) && s.pump.Asking? && Conserved(s.decoder, d, out, taken)
    ensures Inv(Decoded(s, d, out, taken))
  {
    Decoding(s.history, s.decoder, s.reader.held, taken, d, out);
  }

  lemma PollKeeps(p: Parser, s: Sys)
    requires Sound(p) && Inv(s) && s.pump.Asking?
    ensures Inv(Polled(p, s))
  {
    var (d, out) := Next(p, s.decoder, s.expired);
    NextConserves(p, s.decoder, s.expired);
    DecodedKeeps(s, d, out, Taken(p, s.decoder, s.expired));
  }

  lemma ReaderKeeps(p: Parser, s: Sys, a: Act)
    requires Sound(p) && Inv(s) && Enabled(s, a, true) && (a.Read? || a.TakeChunk?)
    ensures Inv(After(p, s, a, true))
  {
    if a.Read? {
      ChunkArrives(s.history, s.decoder.buffer, a.chunk);
    } else {
      ChunkMoves(s.history, s.decoder.buffer, s.reader.held);
    }
  }

  lemma ConsumedByPrompt(h: History, event: Event, prompt: nat)
    requires ByPrompt(h, prompt)
    ensures ByPrompt(Consuming(h, event, prompt), prompt)
  {
  }

  lemma PostKeeps(s: Sys, s': Sys)
    requires Inv(s) && s.pump.Holding?
    requires s' == s.(pump := Polling, history := Consuming(s.history, s.pump.event, s.prompt))
    ensures Inv(s')
  {
    EventMoves(s.history, s.pump.event, s.decoder.pending, s.prompt);
    ConsumedByPrompt(s.history, s.pump.event, s.prompt);
  }

  lemma UpdateKeeps(s: Sys, finishes: bool)
    requires Inv(s) && s.program.running && s.program.mailbox.Some?
    ensures Inv(Updated(s, finishes))
  {
    if s.program.mailbox.value.Input? {
      var event := s.program.mailbox.value.event;
      EventMoves(s.history, event, s.decoder.pending, s.prompt);
      ConsumedByPrompt(s.history, event, s.prompt);
    }
  }

  lemma GivenBackKeeps(s: Sys, event: Event)
    requires Inv(s) && InHand(s) == [event] && s.program.mailbox == None
    ensures Inv(GivenBack(s, event))
  {
    EventMoves(s.history, event, s.decoder.pending, s.prompt);
  }

  lemma GivingBackKeeps(p: Parser, s: Sys, a: Act)
    requires Sound(p) && Inv(s) && Enabled(s, a, true) && (a.Refuse? || a.GiveUp? || a.TakeReceipt?)
    ensures Inv(After(p, s, a, true))
  {
    if InHand(s) != [] {
      GivenBackKeeps(s, s.pump.event);
    } else {
      PumpMovesKeeps(s, After(p, s, a, true));
    }
  }

  /** The pump moves on with nothing in its hand, before and after. */
  lemma PumpMovesKeeps(s: Sys, s': Sys)
    requires Inv(s) && s' == s.(pump := s'.pump) && InHand(s) == [] && InHand(s') == []
    requires s.program.mailbox == None
    requires s'.pump.Exited? ==> s.reader.held == [] && !s.reader.reading
    ensures Inv(s')
  {
  }

  lemma ProgramKeeps(p: Parser, s: Sys, a: Act)
    requires Sound(p) && Inv(s) && Enabled(s, a, true)
    requires a.Quit? || a.ProgramReturns? || a.CloseStopped? || a.Send? || a.NextPrompt?
    ensures Inv(After(p, s, a, true))
  {
  }

  lemma PumpKeeps(p: Parser, s: Sys, a: Act)
    requires Sound(p) && Inv(s) && Enabled(s, a, true)
    requires a.ChunksClosed? || a.Timeout? || a.SeeStop? || a.SeeNoStop? || a.StopReading? || a.EndDelivered?
      || a.Drained?
    ensures Inv(After(p, s, a, true))
  {
    if a.ChunksClosed? || a.Timeout? || a.SeeStop? || a.SeeNoStop? {
      LookingKeeps(p, s, a);
    } else if a.EndDelivered? {
      PumpMovesKeeps(s, After(p, s, a, true));
    }
  }

  lemma LookingKeeps(p: Parser, s: Sys, a: Act)
    requires Sound(p) && Inv(s) && Enabled(s, a, true)
    requires a.ChunksClosed? || a.Timeout? || a.SeeStop? || a.SeeNoStop?
    ensures Inv(After(p, s, a, true))
  {
  }

  lemma StepKeeps(p: Parser, s: Sys, a: Act)
    requires Sound(p) && Inv(s) && Enabled(s, a, true)
    ensures Inv(After(p, s, a, true))
  {
    match a
    case Poll => PollKeeps(p, s);
    case Read(_) => ReaderKeeps(p, s, a);
    case TakeChunk => ReaderKeeps(p, s, a);
    case Post => PostKeeps(s, After(p, s, a, true));
    case Update(finishes) => UpdateKeeps(s, finishes);
    case Refuse => GivingBackKeeps(p, s, a);
    case GiveUp => GivingBackKeeps(p, s, a);
    case TakeReceipt => GivingBackKeeps(p, s, a);
    case Quit => ProgramKeeps(p, s, a);
    case ProgramReturns => ProgramKeeps(p, s, a);
    case CloseStopped => ProgramKeeps(p, s, a);
    case Send => ProgramKeeps(p, s, a);
    case NextPrompt => ProgramKeeps(p, s, a);
    case _ => PumpKeeps(p, s, a);
  }

  lemma {:induction false} InvAt(p: Parser, states: seq<Sys>, acts: seq<Act>, i: nat)
    requires Sound(p) && Run(p, states, acts, true) && i < |states|
    ensures Inv(states[i])
  {
    if i > 0 {
      InvAt(p, states, acts, i - 1);
      StepKeeps(p, states[i - 1], acts[i - 1]);
    }
  }

  // ---------- Exactly-once delivery, over every run ----------

  /**
   At every moment of every run over any number of prompts: what has been decoded is what has been consumed, followed
   by the event in the pump's hand and the pending ones; what has been read is what has been decoded, followed by the
   buffer and the chunk in the reader's hand; and each consumed event has one consumer, in the order of the prompts.
   */
  lemma ExactlyOnce(p: Parser, states: seq<Sys>, acts: seq<Act>, i: nat)
    requires Sound(p) && Run(p, states, acts, true) && i < |states|
    ensures var s := states[i]; var h := s.history;
      && Events(h.tokens) == h.consumed + (InHand(s) + s.decoder.pending)
      && h.raw == Bytes(h.tokens) + (s.decoder.buffer + s.reader.held)
      && |h.consumers| == |h.consumed|
      && forall j, k :: 0 <= j < k < |h.consumers| ==> h.consumers[j] <= h.consumers[k] <= s.prompt
  {
    InvAt(p, states, acts, i);
  }

  /** Between two prompts nothing is in anybody's hand: every event not consumed waits for the next prompt. */
  lemma NothingLostBetweenPrompts(p: Parser, states: seq<Sys>, acts: seq<Act>, i: nat)
    requires Sound(p) && Run(p, states, acts, true) && i < |states| && states[i].pump.Exited?
    ensures var s := states[i]; var h := s.history;
      Events(h.tokens) == h.consumed + s.decoder.pending && h.raw == Bytes(h.tokens) + s.decoder.buffer
  {
    InvAt(p, states, acts, i);
    var s := states[i];
    assert [] + s.decoder.pending == s.decoder.pending && s.decoder.buffer + [] == s.decoder.buffer;
  }

  predicate Extends(h: History, h': History) {
    h.raw <= h'.raw && h.tokens <= h'.tokens && h.consumed <= h'.consumed && h.consumers <= h'.consumers
  }

  lemma ExtendsTransitive(h: History, h': History, h'': History)
    requires Extends(h, h') && Extends(h', h'')
    ensures Extends(h, h'')
  {
  }

  lemma HistoryGrows(p: Parser, s: Sys, a: Act, careful: bool)
    requires Sound(p) && Enabled(s, a, careful)
    ensures Extends(s.history, After(p, s, a, careful).history)
  {
    if a.Poll? {
      assert s.history.tokens <= Polled(p, s).history.tokens;
    } else if a.Update? {
      UpdateGrows(s, a.finishes);
    } else if a.Post? || a.Read? {
      DeliveryGrows(p, s, a, careful);
    } else {
      assert After(p, s, a, careful).history == s.history;
    }
  }

  lemma UpdateGrows(s: Sys, finishes: bool)
    requires s.program.mailbox.Some?
    ensures Extends(s.history, Updated(s, finishes).history)
  {
  }

  lemma DeliveryGrows(p: Parser, s: Sys, a: Act, careful: bool)
    requires Sound(p) && Enabled(s, a, careful) && (a.Post? || a.Read?)
    ensures Extends(s.history, After(p, s, a, careful).history)
  {
  }

  lemma {:induction false} ExtendsChain(states: seq<Sys>, i: nat, j: nat)
    requires i <= j < |states|
    requires forall k :: i <= k < j ==> Extends(states[k].history, states[k + 1].history)
    ensures Extends(states[i].history, states[j].history)
    decreases j - i
  {
    if i < j {
      ExtendsChain(states, i, j - 1);
      ExtendsTransitive(states[i].history, states[j - 1].history, states[j].history);
    }
  }

  /** What a prompt has consumed stays consumed by it: later events are only ever added. */
  lemma ConsumedForGood(p: Parser, states: seq<Sys>, acts: seq<Act>, careful: bool, i: nat, j: nat)
    requires Sound(p) && Run(p, states, acts, careful) && i <= j < |states|
    ensures Extends(states[i].history, states[j].history)
  {
    forall k | i <= k < j ensures Extends(states[k].history, states[k + 1].history) {
      assert Enabled(states[k], acts[k], careful);
      HistoryGrows(p, states[k], acts[k], careful);
    }
    ExtendsChain(states, i, j);
  }

  // ---------- Why the stop signal must wait ----------

  lemma OneMore(p: Parser, states: seq<Sys>, acts: seq<Act>, a: Act) returns (states': seq<Sys>, acts': seq<Act>)
    requires Sound(p) && Run(p, states, acts, false) && Enabled(states[|acts|], a, false)
    ensures Run(p, states', acts', false)
    ensures states'[|acts'|] == After(p, states[|acts|], a, false)
  {
    states', acts' := states + [After(p, states[|acts|], a, false)], acts + [a];
  }

  lemma BytesArrive(p: Parser, bytes: seq<byte>) returns (states: seq<Sys>, acts: seq<Act>)
    requires Sound(p) && bytes != []
    ensures Run(p, states, acts, false)
    ensures states[|acts|] == Sys(State(bytes, false, []), false, false, Polling, Reader([], true, false),
      Program(true, false, None, None, false), 0, History(bytes, [], [], []))
  {
    var s0 := Sys(State([], false, []), false, false, Polling, Reader([], true, false),
      Program(true, false, None, None, false), 0, History([], [], [], []));
    states, acts := [s0], [];
    states, acts := OneMore(p, states, acts, SeeNoStop);
    states, acts := OneMore(p, states, acts, Poll);
    states, acts := OneMore(p, states, acts, Read(bytes));
    states, acts := OneMore(p, states, acts, TakeChunk);
    assert states[|acts|].decoder.buffer == bytes && states[|acts|].history.raw == bytes;
  }

  lemma KeyInHand(p: Parser, key: Event, bytes: seq<byte>) returns (states: seq<Sys>, acts: seq<Act>)
    requires Sound(p) && key.Key? && bytes != [] && !MustWait(p, bytes, false) && p.decode(bytes) == (|bytes|, key)
    ensures Run(p, states, acts, false)
    ensures states[|acts|] == Sys(State([], false, []), false, false, Holding(key), Reader([], true, false),
      Program(true, false, None, None, false), 0, History(bytes, [Sequence(bytes, key)], [], []))
  {
    states, acts := BytesArrive(p, bytes);
    states, acts := OneMore(p, states, acts, SeeNoStop);
    assert bytes[|bytes|..] == [] && bytes[..|bytes|] == bytes;
    states, acts := OneMore(p, states, acts, Poll);
    assert states[|acts|].history.tokens == [Sequence(bytes, key)];
  }

  lemma KeySent(p: Parser, key: Event, bytes: seq<byte>) returns (states: seq<Sys>, acts: seq<Act>)
    requires Sound(p) && key.Key? && bytes != [] && !MustWait(p, bytes, false) && p.decode(bytes) == (|bytes|, key)
    ensures Run(p, states, acts, false)
    ensures states[|acts|] == Sys(State([], false, []), false, false, Delivering(key), Reader([], true, false),
      Program(true, false, Some(Input(key)), None, false), 0, History(bytes, [Sequence(bytes, key)], [], []))
  {
    states, acts := KeyInHand(p, key, bytes);
    states, acts := OneMore(p, states, acts, Send);
  }

  lemma KeyGivenBack(p: Parser, key: Event, bytes: seq<byte>) returns (states: seq<Sys>, acts: seq<Act>)
    requires Sound(p) && key.Key? && bytes != [] && !MustWait(p, bytes, false) && p.decode(bytes) == (|bytes|, key)
    ensures Run(p, states, acts, false)
    ensures states[|acts|] == Sys(State([], false, [key]), false, false, Draining, Reader([], true, false),
      Program(true, false, Some(Input(key)), None, true), 0, History(bytes, [Sequence(bytes, key)], [], []))
  {
    states, acts := KeySent(p, key, bytes);
    states, acts := OneMore(p, states, acts, CloseStopped);
    states, acts := OneMore(p, states, acts, GiveUp);
    assert states[|acts|].decoder.pending == [key];
  }

  /** The first prompt's pump gives back a key its program is about to consume. */
  lemma KeyGivenBackAndConsumed(p: Parser, key: Event, bytes: seq<byte>) returns (states: seq<Sys>, acts: seq<Act>)
    requires Sound(p) && key.Key? && bytes != [] && !MustWait(p, bytes, false) && p.decode(bytes) == (|bytes|, key)
    ensures Run(p, states, acts, false)
    ensures states[|acts|] == Sys(State([], false, [key]), false, false, Draining, Reader([], true, false),
      Program(true, true, None, Some(Receipt(true, true)), true), 0,
      History(bytes, [Sequence(bytes, key)], [key], [0]))
  {
    states, acts := KeyGivenBack(p, key, bytes);
    states, acts := OneMore(p, states, acts, Update(true));
    assert states[|acts|].history.consumed == [key] && states[|acts|].history.consumers == [0];
  }

  lemma NextPromptPolls(p: Parser, key: Event, bytes: seq<byte>) returns (states: seq<Sys>, acts: seq<Act>)
    requires Sound(p) && key.Key? && bytes != [] && !MustWait(p, bytes, false) && p.decode(bytes) == (|bytes|, key)
    ensures Run(p, states, acts, false)
    ensures states[|acts|] == Sys(State([], false, [key]), false, false, Polling, Reader([], true, false),
      Program(true, false, None, None, false), 1, History(bytes, [Sequence(bytes, key)], [key], [0]))
  {
    states, acts := KeyGivenBackAndConsumed(p, key, bytes);
    states, acts := OneMore(p, states, acts, ProgramReturns);
    states, acts := OneMore(p, states, acts, StopReading(false));
    states, acts := OneMore(p, states, acts, Drained);
    states, acts := OneMore(p, states, acts, NextPrompt);
  }

  lemma KeyInHandAgain(p: Parser, key: Event, bytes: seq<byte>) returns (states: seq<Sys>, acts: seq<Act>)
    requires Sound(p) && key.Key? && bytes != [] && !MustWait(p, bytes, false) && p.decode(bytes) == (|bytes|, key)
    ensures Run(p, states, acts, false)
    ensures states[|acts|] == Sys(State([], false, []), false, false, Holding(key), Reader([], true, false),
      Program(true, false, None, None, false), 1, History(bytes, [Sequence(bytes, key)], [key], [0]))
  {
    states, acts := NextPromptPolls(p, key, bytes);
    states, acts := OneMore(p, states, acts, SeeNoStop);
    states, acts := OneMore(p, states, acts, Poll);
    assert [Sequence(bytes, key)] + [] == [Sequence(bytes, key)];
  }

  lemma KeySentAgain(p: Parser, key: Event, bytes: seq<byte>) returns (states: seq<Sys>, acts: seq<Act>)
    requires Sound(p) && key.Key? && bytes != [] && !MustWait(p, bytes, false) && p.decode(bytes) == (|bytes|, key)
    ensures Run(p, states, acts, false)
    ensures states[|acts|] == Sys(State([], false, []), false, false, Delivering(key), Reader([], true, false),
      Program(true, false, Some(Input(key)), None, false), 1, History(bytes, [Sequence(bytes, key)], [key], [0]))
  {
    states, acts := KeyInHandAgain(p, key, bytes);
    states, acts := OneMore(p, states, acts, Send);
  }

  /**
   Stopping before the program has returned breaks this: the pump gives the event back while the program still acts on
   it, and the next prompt consumes it again.
   */
  lemma EarlyStopConsumesTwice(p: Parser, key: Event, bytes: seq<byte>) returns (states: seq<Sys>, acts: seq<Act>)
    requires Sound(p) && key.Key? && bytes != [] && !MustWait(p, bytes, false) && p.decode(bytes) == (|bytes|, key)
    ensures Run(p, states, acts, false)
    ensures var h := states[|acts|].history;
      h.consumed == [key, key] && h.consumers == [0, 1] && Events(h.tokens) == [key]
  {
    states, acts := KeySentAgain(p, key, bytes);
    states, acts := OneMore(p, states, acts, Update(true));
    assert [key] + [key] == [key, key] && [0] + [1] == [0, 1];
    TokensOfOne(Sequence(bytes, key));
  }
}
