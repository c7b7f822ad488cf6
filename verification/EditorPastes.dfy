/**
 Bracketed pastes over whole runs of the input delivery: whatever chunks the bytes came in, whatever prompts came and
 went meanwhile, a paste holds exactly the bytes from its opening to the first closing marker.
 */
module EditorPastes {
  import opened Prelude
  import opened EditorDecoder
  import opened EditorInput

  // ---------- Openings and pastes alternate ----------

  /** The content ends where the closing marker first occurs. */
  predicate EndsAtMarker(content: seq<byte>) {
    IndexOf(content + PASTE_END, PASTE_END) == Some(|content|)
  }

  predicate InPaste(tokens: seq<Token>) {
    tokens != [] && tokens[|tokens| - 1].Opening?
  }

  /** Each paste directly follows its opening and ends at the first marker; nothing else follows an opening. */
  predicate Bracketed(tokens: seq<Token>) {
    && (forall k :: 0 <= k < |tokens| && tokens[k].Pasted? ==> InPaste(tokens[..k]) && EndsAtMarker(tokens[k].content))
    && (forall k :: 0 <= k < |tokens| && InPaste(tokens[..k]) ==> tokens[k].Pasted?)
  }

  lemma OneMoreToken(tokens: seq<Token>, t: Token)
    requires Bracketed(tokens) && (t.Pasted? <==> InPaste(tokens)) && (t.Pasted? ==> EndsAtMarker(t.content))
    ensures Bracketed(tokens + [t]) && (InPaste(tokens + [t]) <==> t.Opening?)
  {
    var all := tokens + [t];
    assert all[..|tokens|] == tokens;
    forall k | 0 <= k < |tokens| ensures all[..k] == tokens[..k] && all[k] == tokens[k] {}
  }

  lemma FirstOccurrenceStays(text: seq<byte>, k: nat)
    requires IndexOf(text, PASTE_END) == Some(k)
    ensures EndsAtMarker(text[..k])
  {
    var short, later := text[..k] + PASTE_END, text[k + |PASTE_END|..];
    IndexIsFirst(text, PASTE_END, 0);
    SplitAround(text, PASTE_END, k);
    assert OccursAt(short, PASTE_END, k);
    IndexIsFirst(short, PASTE_END, 0);
    assert text == short + later;
    IndexIsStable(short, later, PASTE_END);
  }

  /** One call of the decoder keeps openings and pastes alternating, and its paste flag tells what comes next. */
  lemma {:induction false} TakenIsBracketed(p: Parser, d: State, expired: bool, tokens: seq<Token>)
    requires Sound(p) && Bracketed(tokens) && (d.paste <==> InPaste(tokens))
    ensures var all := tokens + Taken(p, d, expired); Bracketed(all) && (Next(p, d, expired).0.paste <==> InPaste(all))
    decreases |d.buffer|
  {
    assert tokens + [] == tokens;
    if d.pending == [] && d.buffer != [] {
      if d.paste {
        if IndexOf(d.buffer, PASTE_END).Some? {
          var k := IndexOf(d.buffer, PASTE_END).value;
          PasteNext(p, d, expired, k);
          FirstOccurrenceStays(d.buffer, k);
          OneMoreToken(tokens, Pasted(d.buffer[..k]));
        }
      } else if !MustWait(p, d.buffer, expired) {
        SequenceIsBracketed(p, d, expired, tokens);
      }
    }
  }

  lemma {:induction false} SequenceIsBracketed(p: Parser, d: State, expired: bool, tokens: seq<Token>)
    requires Sound(p) && Bracketed(tokens) && !InPaste(tokens)
    requires d.pending == [] && d.buffer != [] && !d.paste && !MustWait(p, d.buffer, expired)
    ensures var all := tokens + Taken(p, d, expired); Bracketed(all) && (Next(p, d, expired).0.paste <==> InPaste(all))
    decreases |d.buffer|, 0
  {
    FrontAndBehind(p, d);
    OneMoreToken(tokens, Front(p, d));
    if GoesOn(p, d) {
      TakenIsBracketed(p, Behind(p, d), expired, tokens + [Front(p, d)]);
      Assoc(tokens, [Front(p, d)], Taken(p, Behind(p, d), expired));
    }
  }

  // ---------- Over every run ----------

  /** A pump that waits has asked the decoder for everything it can give. */
  ghost predicate AllAsked(p: Parser, s: Sys)
    requires Sound(p)
  {
    s.pump.Waiting? ==> Next(p, s.decoder, s.expired) == (s.decoder, None)
  }

  ghost predicate PasteInv(p: Parser, s: Sys)
    requires Sound(p)
  {
    && Bracketed(s.history.tokens)
    && (s.decoder.paste <==> InPaste(s.history.tokens))
    && AllAsked(p, s)
  }

  /** Asking again gives nothing again. */
  lemma {:induction false} NothingAgain(p: Parser, d: State, expired: bool)
    requires Sound(p) && Next(p, d, expired).1 == None
    ensures Next(p, Next(p, d, expired).0, expired) == Next(p, d, expired)
    decreases |d.buffer|
  {
    if d.pending == [] && d.buffer != [] && !d.paste && !MustWait(p, d.buffer, expired) {
      NothingAgain(p, Behind(p, d), expired);
    }
  }

  lemma PollKeepsPastes(p: Parser, s: Sys)
    requires Sound(p) && PasteInv(p, s)
    ensures PasteInv(p, Polled(p, s))
  {
    TakenIsBracketed(p, s.decoder, s.expired, s.history.tokens);
    if Next(p, s.decoder, s.expired).1 == None {
      NothingAgain(p, s.decoder, s.expired);
    }
  }

  /** Every other step leaves what is decoded, and the decoder of a pump that goes on waiting, alone. */
  lemma OtherStepsLeavePastes(p: Parser, s: Sys, a: Act, careful: bool)
    requires Sound(p) && Enabled(s, a, careful) && !a.Poll?
    ensures var s' := After(p, s, a, careful);
      && s'.history.tokens == s.history.tokens && s'.decoder.paste == s.decoder.paste
      && (s'.pump.Waiting? ==> s.pump.Waiting? && s'.decoder == s.decoder && s'.expired == s.expired)
  {
    if a.Update? || a.Send? || a.TakeReceipt? {
      DeliveryLeavesPastes(p, s, a, careful);
    }
  }

  lemma DeliveryLeavesPastes(p: Parser, s: Sys, a: Act, careful: bool)
    requires Sound(p) && Enabled(s, a, careful) && (a.Update? || a.Send? || a.TakeReceipt?)
    ensures var s' := After(p, s, a, careful);
      && s'.history.tokens == s.history.tokens && s'.decoder.paste == s.decoder.paste
      && (s'.pump.Waiting? ==> s.pump.Waiting? && s'.decoder == s.decoder && s'.expired == s.expired)
  {
  }

  lemma StepKeepsPastes(p: Parser, s: Sys, a: Act, careful: bool)
    requires Sound(p) && PasteInv(p, s) && Enabled(s, a, careful)
    ensures PasteInv(p, After(p, s, a, careful))
  {
    if a.Poll? {
      PollKeepsPastes(p, s);
    } else {
      OtherStepsLeavePastes(p, s, a, careful);
    }
  }

  lemma {:induction false} RunKeepsPastes(p: Parser, states: seq<Sys>, acts: seq<Act>, careful: bool, i: nat)
    requires Sound(p) && Run(p, states, acts, careful) && i < |states|
    ensures PasteInv(p, states[i])
  {
    if i > 0 {
      RunKeepsPastes(p, states, acts, careful, i - 1);
      StepKeepsPastes(p, states[i - 1], acts[i - 1], careful);
    }
  }

  /** The bytes of the first pieces. */
  function Until(tokens: seq<Token>, k: nat): nat
    requires k <= |tokens|
  {
    |Bytes(tokens[..k])|
  }

  lemma Remaining<T>(first: seq<T>, rest: seq<T>)
    ensures (first + rest)[|first|..] == rest
  {
  }

  /** The first pieces stand at the front of the raw input. */
  lemma RawStarts(first: seq<Token>, others: seq<Token>, raw: seq<byte>)
    requires Bytes(first + others) <= raw
    ensures Bytes(first) <= raw
  {
    BytesAppend(first, others);
  }

  lemma Parted<T>(s: seq<T>, k: nat)
    requires k <= |s|
    ensures s == s[..k] + s[k..]
  {
  }

  lemma MarkedIsWhole(content: seq<byte>, later: seq<byte>)
    requires EndsAtMarker(content)
    ensures WholePaste(content + PASTE_END + later) == (Some(Paste(content)), later)
  {
    var marked := content + PASTE_END;
    var all := marked + later;
    IndexIsStable(marked, later, PASTE_END);
    assert all[..|content|] == content;
    Remaining(marked, later);
  }

  /** The paste that starts at a position of the raw input, and the position behind its marker. */
  predicate PasteAt(raw: seq<byte>, start: nat, content: seq<byte>, next: nat) {
    start <= |raw| && next <= |raw| && WholePaste(raw[start..]) == (Some(Paste(content)), raw[next..])
  }

  lemma PasteInRaw(tokens: seq<Token>, k: nat, raw: seq<byte>)
    requires k < |tokens| && Bytes(tokens) <= raw && tokens[k].Pasted? && EndsAtMarker(tokens[k].content)
    ensures PasteAt(raw, Until(tokens, k), tokens[k].content, Until(tokens, k + 1))
  {
    Parted(tokens, k + 1);
    RawStarts(tokens[..k + 1], tokens[k + 1..], raw);
    TakeOneMore(tokens, k);
    LastPasteInRaw(tokens[..k], tokens[k], raw);
  }

  lemma LastPasteInRaw(before: seq<Token>, t: Token, raw: seq<byte>)
    requires t.Pasted? && EndsAtMarker(t.content) && Bytes(before + [t]) <= raw
    ensures PasteAt(raw, |Bytes(before)|, t.content, |Bytes(before + [t])|)
  {
    BytesSnoc(before, t);
    MarkedAt(raw, Bytes(before), t);
  }

  lemma MarkedAt(raw: seq<byte>, before: seq<byte>, t: Token)
    requires t.Pasted? && EndsAtMarker(t.content) && before + TokenBytes(t) <= raw
    ensures PasteAt(raw, |before|, t.content, |before + TokenBytes(t)|)
  {
    var later := raw[|before + TokenBytes(t)|..];
    assert raw[|before|..] == TokenBytes(t) + later;
    MarkedIsWhole(t.content, later);
  }

  /** What is still in the decoder and the reader while a paste is open. */
  predicate OpenAt(s: Sys, start: nat) {
    && start <= |s.history.raw| - |s.reader.held|
    && s.decoder.paste
    && (s.pump.Waiting? ==> WholePaste(s.history.raw[start..|s.history.raw| - |s.reader.held|]).0 == None)
  }

  /**
   At every moment of every run, over any chunks and prompts: after an opening comes one paste, which holds the raw
   bytes up to the first closing marker, and decoding goes on right behind the marker; or the paste is still open, and
   then a waiting pump has not received the marker.
   */
  lemma PastesAreWhole(p: Parser, states: seq<Sys>, acts: seq<Act>, i: nat, k: nat)
    requires Sound(p) && Run(p, states, acts, true) && i < |states|
    requires k < |states[i].history.tokens| && states[i].history.tokens[k].Opening?
    ensures var s := states[i]; var h := s.history; var start := Until(h.tokens, k + 1);
      if k + 1 < |h.tokens|
      then h.tokens[k + 1].Pasted? && PasteAt(h.raw, start, h.tokens[k + 1].content, Until(h.tokens, k + 2))
      else OpenAt(s, start)
  {
    ExactlyOnce(p, states, acts, i);
    RunKeepsPastes(p, states, acts, true, i);
    if k + 1 < |states[i].history.tokens| {
      Closed(states[i].history.tokens, states[i].history.raw, k);
    } else {
      StillOpen(p, states[i], k);
    }
  }

  lemma Closed(tokens: seq<Token>, raw: seq<byte>, k: nat)
    requires Bracketed(tokens) && Bytes(tokens) <= raw && k + 1 < |tokens| && tokens[k].Opening?
    ensures tokens[k + 1].Pasted?
    ensures PasteAt(raw, Until(tokens, k + 1), tokens[k + 1].content, Until(tokens, k + 2))
  {
    assert InPaste(tokens[..k + 1]);
    PasteInRaw(tokens, k + 1, raw);
  }

  lemma StillOpen(p: Parser, s: Sys, k: nat)
    requires Sound(p) && PasteInv(p, s) && |s.history.tokens| == k + 1 && s.history.tokens[k].Opening?
    requires s.history.raw == Bytes(s.history.tokens) + (s.decoder.buffer + s.reader.held)
    ensures OpenAt(s, Until(s.history.tokens, k + 1))
  {
    assert s.history.tokens[..k + 1] == s.history.tokens;
    if s.pump.Waiting? {
      MarkerIsAwaited(p, s.decoder, s.expired);
    }
    OpenBehind(s, Bytes(s.history.tokens));
  }

  lemma OpenBehind(s: Sys, decoded: seq<byte>)
    requires s.history.raw == decoded + (s.decoder.buffer + s.reader.held)
    requires s.decoder.paste && (s.pump.Waiting? ==> WholePaste(s.decoder.buffer).0 == None)
    ensures OpenAt(s, |decoded|)
  {
    Middle(decoded, s.decoder.buffer, s.reader.held);
  }

  lemma Middle<T>(a: seq<T>, b: seq<T>, c: seq<T>)
    ensures (a + (b + c))[|a|..|a + (b + c)| - |c|] == b
  {
  }

  lemma MarkerIsAwaited(p: Parser, d: State, expired: bool)
    requires Sound(p) && d.paste && Next(p, d, expired) == (d, None)
    ensures WholePaste(d.buffer).0 == None
  {
  }

  /** Every paste has its opening, whenever both were decoded. */
  lemma PastesAreOpened(p: Parser, states: seq<Sys>, acts: seq<Act>, i: nat, k: nat)
    requires Sound(p) && Run(p, states, acts, true) && i < |states|
    requires k < |states[i].history.tokens| && states[i].history.tokens[k].Pasted?
    ensures k > 0 && states[i].history.tokens[k - 1].Opening?
  {
    RunKeepsPastes(p, states, acts, true, i);
    assert InPaste(states[i].history.tokens[..k]);
  }

  /**
   Two runs that open a paste before the same bytes, one perhaps having read more, decode the same paste, however
   differently chunks, timeouts and prompts fell.
   */
  lemma PromptsDoNotMatter(
    p: Parser, states: seq<Sys>, acts: seq<Act>, i: nat, k: nat,
    states': seq<Sys>, acts': seq<Act>, i': nat, k': nat)
    requires Sound(p) && Run(p, states, acts, true) && i < |states| && Run(p, states', acts', true) && i' < |states'|
    requires k + 1 < |states[i].history.tokens| && states[i].history.tokens[k].Opening?
    requires k' + 1 < |states'[i'].history.tokens| && states'[i'].history.tokens[k'].Opening?
    requires var h, h' := states[i].history, states'[i'].history;
      && Until(h.tokens, k + 1) <= |h.raw| && Until(h'.tokens, k' + 1) <= |h'.raw|
      && h.raw[Until(h.tokens, k + 1)..] <= h'.raw[Until(h'.tokens, k' + 1)..]
    ensures states'[i'].history.tokens[k' + 1] == states[i].history.tokens[k + 1]
  {
    var h, h' := states[i].history, states'[i'].history;
    PastesAreWhole(p, states, acts, i, k);
    PastesAreWhole(p, states', acts', i', k');
    PasteStays(h.raw[Until(h.tokens, k + 1)..], h'.raw[Until(h'.tokens, k' + 1)..]);
  }

  /** What a paste holds does not change when more bytes arrive. */
  lemma PasteStays(raw: seq<byte>, raw': seq<byte>)
    requires raw <= raw' && WholePaste(raw).0.Some?
    ensures WholePaste(raw').0 == WholePaste(raw).0
  {
    assert raw' == raw + raw'[|raw|..];
    IndexIsStable(raw, raw'[|raw|..], PASTE_END);
    IndexIsFirst(raw, PASTE_END, 0);
    assert raw'[..IndexOf(raw, PASTE_END).value] == raw[..IndexOf(raw, PASTE_END).value];
  }
}
