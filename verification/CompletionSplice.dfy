/**
 Accepting a completion: the escaped candidate, spliced in at the cursor, is read back as exactly one argument.
 The condition on the candidate is exact.
 */
module CompletionSplice {
  import opened Prelude
  import opened CommandLine
  import opened Completion

  // ---------- Escaping ----------

  /** What escapeShellArg writes for one rune. Backslashes are left as they are. */
  function Escaped(r: char): string {
    if r == ' ' || r == '\t' || r == '\'' || r == '"' then ['\\', r] else [r]
  }

  function Escape(s: string): string {
    if s == "" then "" else Escaped(s[0]) + Escape(s[1..])
  }

  lemma EscapeNext(done: string, next: string, rest: string)
    requires rest != "" && next == done + Escaped(rest[0])
    ensures next + Escape(rest[1..]) == done + Escape(rest)
  {
  }

  method EscapeShellArg(s: string) returns (b: string)
    ensures b == Escape(s)
  {
    b := "";
    var i := 0;
    while i < |s|
      invariant 0 <= i <= |s| && b + Escape(s[i..]) == Escape(s)
    {
      ghost var rest, before := s[i..], b;
      match s[i] {
        case ' ' => b := b + "\\ ";
        case '\t' => b := b + "\\\t";
        case '\'' => b := b + "\\'";
        case '"' => b := b + "\\\"";
        case r => b := b + [r];
      }
      assert b == before + Escaped(s[i]);
      EscapeNext(before, b, rest);
      assert rest[1..] == s[i + 1..];
      i := i + 1;
    }
  }

  function FormatCompletionCandidate(candidate: string, quoteChar: Quote, isDir: bool): string {
    match quoteChar
    case Single => if isDir then candidate else candidate + "'"
    case Double => if isDir then candidate else candidate + "\""
    case Bare => Escape(candidate)
  }

  // ---------- Which candidates survive ----------

  /**
   A rune may follow `before`: no backslash stands before a rune it would vanish in front of, and no whitespace other
   than space and tab stands without a backslash before it.
   */
  predicate MayFollow(before: char, r: char) {
    if before == '\\' then r !in ESCAPABLE else IsSpace(r) ==> r == ' ' || r == '\t'
  }

  /** The candidates that survive being escaped and read back. */
  predicate Faithful(c: string) {
    c != "" && FaithfulAfter('/', c)
  }

  function Before(prior: char, s: string, i: nat): char
    requires i <= |s|
  {
    if i == 0 then prior else s[i - 1]
  }

  predicate FaithfulAfter(prior: char, s: string) {
    forall i :: 0 <= i < |s| ==> MayFollow(Before(prior, s, i), s[i])
  }

  lemma FaithfulStep(prior: char, s: string)
    requires s != ""
    ensures FaithfulAfter(prior, s) <==> MayFollow(prior, s[0]) && FaithfulAfter(s[0], s[1..])
  {
    var t := s[1..];
    if FaithfulAfter(prior, s) {
      assert Before(prior, s, 0) == prior;
      forall i | 0 <= i < |t| ensures MayFollow(Before(s[0], t, i), t[i]) {
        assert Before(prior, s, i + 1) == Before(s[0], t, i) && s[i + 1] == t[i];
      }
    }
    if MayFollow(prior, s[0]) && FaithfulAfter(s[0], t) {
      forall i | 0 <= i < |s| ensures MayFollow(Before(prior, s, i), s[i]) {
        if i > 0 { assert Before(prior, s, i) == Before(s[0], t, i - 1) && s[i] == t[i - 1]; }
      }
    }
  }

  // ---------- A faithful candidate is read back ----------

  /** Between words. */
  function Gap(args: seq<string>): Lex {
    Lex(args, "", false, Bare, false)
  }

  /** Feeding the escaped form of one rune. */
  lemma FeedEscaped(s: Lex, r: char)
    requires s.quote == Bare && MayFollow(if s.escaped then '\\' else '/', r)
    ensures var s' := FeedAll(s, Escaped(r));
      s'.args == s.args && s'.quote == Bare && s'.inToken && s'.escaped == (r == '\\') && Text(s') == Text(s) + [r]
  {
    var e := Escaped(r);
    if |e| == 2 {
      assert FeedAll(s, e) == FeedAll(Feed(s, e[0]), e[1..]) && e[1..] == [r];
      assert FeedAll(Feed(s, e[0]), [r]) == Feed(Feed(s, e[0]), r);
    } else {
      assert FeedAll(s, e) == Feed(s, r);
    }
  }

  /** The state after the escaped form of one rune, when `rest` follows. */
  function Block(s: Lex, r: char, rest: string): Lex {
    if ClosingBackslash(s, Escaped(r) + rest) then Closed(s) else FeedAll(s, Escaped(r))
  }

  lemma EscapeNeverStartsWithQuote(c: string)
    ensures Escape(c) == "" || Escape(c)[0] != '"'
  {
  }

  lemma SplitBlock(s: Lex, r: char, rest: string)
    requires rest == "" || rest[0] != '"'
    ensures SplitFrom(s, Escaped(r) + rest) == SplitFrom(Block(s, r, rest), rest)
  {
    var e := Escaped(r);
    var line := e + rest;
    if ClosingBackslash(s, line) {
      assert |e| == 2 && line[2..] == rest;
    } else if |e| == 2 {
      var s1 := Feed(s, e[0]);
      assert line[0] == e[0] && line[1..] == [r] + rest && line[1..][1..] == rest;
      assert !ClosingBackslash(s1, line[1..]);
      assert SplitFrom(s, line) == SplitFrom(s1, line[1..]) == SplitFrom(Feed(s1, r), rest);
      assert e[1..] == [r] && FeedAll(s, e) == FeedAll(s1, [r]) == Feed(s1, r);
    } else {
      assert line[0] == r && line[1..] == rest && FeedAll(s, e) == Feed(s, r);
    }
  }

  lemma SplitEscape(s: Lex, c: string)
    requires c != ""
    ensures SplitFrom(s, Escape(c)) == SplitFrom(Block(s, c[0], Escape(c[1..])), Escape(c[1..]))
  {
    EscapeNeverStartsWithQuote(c[1..]);
    SplitBlock(s, c[0], Escape(c[1..]));
  }

  lemma {:induction false} SplitFaithful(s: Lex, prior: char, c: string)
    requires s.quote == Bare && s.escaped == (prior == '\\') && FaithfulAfter(prior, c)
    ensures var s' := SplitFrom(s, Escape(c));
      s'.args == s.args && s'.quote == Bare && (c != "" || s.inToken ==> s'.inToken) && Text(s') == Text(s) + c
    decreases |c|
  {
    if c == "" {
      assert Text(s) + c == Text(s);
    } else {
      FaithfulStep(prior, c);
      FeedEscaped(s, c[0]);
      SplitEscape(s, c);
      SplitFaithful(FeedAll(s, Escaped(c[0])), c[0], c[1..]);
      assert Text(s) + c == Text(s) + [c[0]] + c[1..];
    }
  }

  // ---------- Any other candidate is not ----------

  function Quotes(text: string): nat {
    if text == "" then 0 else (if text[0] == '\'' || text[0] == '"' then 1 else 0) + Quotes(text[1..])
  }

  function QuotesAll(words: seq<string>): nat {
    if words == [] then 0 else QuotesAll(words[..|words| - 1]) + Quotes(words[|words| - 1])
  }

  function LengthAll(words: seq<string>): nat {
    if words == [] then 0 else LengthAll(words[..|words| - 1]) + |words[|words| - 1]|
  }

  /** Quote characters, and characters, in everything read so far. */
  function QuotesRead(s: Lex): nat {
    QuotesAll(s.args) + Quotes(s.current)
  }

  function LengthRead(s: Lex): nat {
    LengthAll(s.args) + |Text(s)|
  }

  lemma {:induction false} QuotesAppend(a: string, b: string)
    ensures Quotes(a + b) == Quotes(a) + Quotes(b)
    decreases |a|
  {
    if a == "" {
      assert a + b == b;
    } else {
      assert (a + b)[0] == a[0] && (a + b)[1..] == a[1..] + b;
      QuotesAppend(a[1..], b);
    }
  }

  lemma WordsAppend(words: seq<string>, w: string)
    ensures QuotesAll(words + [w]) == QuotesAll(words) + Quotes(w)
    ensures LengthAll(words + [w]) == LengthAll(words) + |w|
  {
    assert (words + [w])[..|words|] == words;
  }

  predicate WellFormed(s: Lex) {
    (s.quote != Bare || s.escaped ==> s.inToken) && (!s.inToken ==> s.current == "")
  }

  /** What one rune may do to the text: nothing, add itself, add itself behind a backslash, or end the word. */
  datatype Effect = Silent | Added | AddedEscaped | Ended

  function EffectOf(s: Lex, r: char): Effect {
    if s.escaped then if EscapedText(r, s.quote) == [r] then Added else AddedEscaped
    else
      match s.quote
      case Single => if r == '\'' then Silent else Added
      case Double => if r == '\\' || r == '"' then Silent else Added
      case Bare =>
        if r == '\\' || r == '\'' || r == '"' then Silent
        else if IsSpace(r) then if s.inToken then Ended else Silent
        else Added
  }

  lemma FeedEffect(s: Lex, r: char)
    ensures var t := Feed(s, r);
      match EffectOf(s, r)
      case Silent => t.args == s.args && t.current == s.current
      case Added => t.args == s.args && t.current == s.current + [r]
      case AddedEscaped => t.args == s.args && t.current == s.current + ['\\', r]
      case Ended => t.args == s.args + [s.current] && t.current == ""
    ensures Feed(s, r).escaped <==> EffectOf(s, r).Silent? && s.quote != Single && r == '\\'
    ensures EffectOf(s, r).AddedEscaped? <==> s.escaped && EscapedText(r, s.quote) == ['\\', r]
    ensures EffectOf(s, r).Silent? || EffectOf(s, r).Ended? ==> !s.escaped
  {
  }

  /** One rune fed adds at most itself, as far as quotes are concerned. */
  lemma FeedQuotes(s: Lex, r: char)
    ensures QuotesRead(Feed(s, r)) <= QuotesRead(s) + Quotes([r])
    ensures r == '\\' ==> QuotesRead(Feed(s, r)) == QuotesRead(s)
  {
    QuotesOfOne(r);
    FeedEffect(s, r);
    match EffectOf(s, r)
    case Silent =>
    case Added => QuotesAppend(s.current, [r]);
    case AddedEscaped => QuotesAppend(s.current, ['\\', r]);
    case Ended => WordsAppend(s.args, s.current);
  }

  lemma QuotesOfOne(r: char)
    ensures Quotes("") == 0 && Quotes(['\\', r]) == Quotes([r]) && (r == '\\' ==> Quotes([r]) == 0)
    ensures Quotes([r]) == if r == '\'' || r == '"' then 1 else 0
  {
    assert ['\\', r][1..] == [r] && [r][1..] == "";
  }

  /**
   The escaped form of one rune yields no more quotes than the rune; opening a quote loses one. While none opens, it
   yields no more characters than the rune, and as many exactly when the rune may stand where it stands.
   */
  lemma BlockYields(s: Lex, r: char, rest: string)
    requires WellFormed(s)
    ensures var t := Block(s, r, rest);
      && WellFormed(t)
      && QuotesRead(t) <= QuotesRead(s) + Quotes([r])
      && (s.quote == Bare && t.quote != Bare ==> QuotesRead(t) < QuotesRead(s) + Quotes([r]))
  {
    var e := Escaped(r);
    if ClosingBackslash(s, e + rest) {
      QuotesAppend(s.current, "\\");
      assert Quotes("\\") == 0;
    } else if |e| == 2 {
      var s1 := Feed(s, '\\');
      assert e[1..] == [r] && FeedAll(s, e) == FeedAll(s1, [r]) == Feed(s1, r);
      FeedQuotes(s, '\\');
      FeedQuotes(s1, r);
    } else {
      assert FeedAll(s, e) == Feed(s, r);
      FeedQuotes(s, r);
    }
  }

  lemma FeedLength(s: Lex, r: char)
    requires WellFormed(s) && s.quote == Bare && Feed(s, r).quote == Bare
    ensures LengthRead(Feed(s, r)) ==
      LengthRead(s) + if s.escaped then (if r in ESCAPABLE then 0 else 1) else if IsSpace(r) then 0 else 1
  {
    FeedEffect(s, r);
    if EffectOf(s, r).Ended? {
      WordsAppend(s.args, s.current);
    } else {
      assert LengthAll(Feed(s, r).args) == LengthAll(s.args);
    }
  }

  lemma BlockLength(s: Lex, r: char, rest: string)
    requires WellFormed(s) && s.quote == Bare && Block(s, r, rest).quote == Bare
    ensures var t, may := Block(s, r, rest), MayFollow(if s.escaped then '\\' else '/', r);
      && LengthRead(t) <= LengthRead(s) + 1
      && (LengthRead(t) == LengthRead(s) + 1 ==> may && t.escaped == (r == '\\'))
  {
    var e := Escaped(r);
    if |e| == 2 {
      var s1 := Feed(s, '\\');
      assert e[1..] == [r] && FeedAll(s, e) == FeedAll(s1, [r]) == Feed(s1, r);
      FeedLength(s, '\\');
      FeedLength(s1, r);
    } else {
      assert FeedAll(s, e) == Feed(s, r);
      FeedLength(s, r);
    }
  }

  lemma {:induction false} EscapeYields(s: Lex, prior: char, c: string)
    requires WellFormed(s)
    ensures var s' := SplitFrom(s, Escape(c));
      && WellFormed(s')
      && QuotesRead(s') <= QuotesRead(s) + Quotes(c)
      && (s.quote == Bare && QuotesRead(s') == QuotesRead(s) + Quotes(c) ==>
            && LengthRead(s') <= LengthRead(s) + |c|
            && (LengthRead(s') == LengthRead(s) + |c| && s.escaped == (prior == '\\') ==> FaithfulAfter(prior, c)))
    decreases |c|
  {
    if c != "" {
      var t := Block(s, c[0], Escape(c[1..]));
      SplitEscape(s, c);
      BlockYields(s, c[0], Escape(c[1..]));
      EscapeYields(t, c[0], c[1..]);
      assert Quotes(c) == Quotes([c[0]]) + Quotes(c[1..]);
      if s.quote == Bare && t.quote == Bare { BlockLength(s, c[0], Escape(c[1..])); }
      FaithfulStep(prior, c);
    }
  }

  lemma QuotesOfText(s: Lex)
    ensures Quotes(Text(s)) == Quotes(s.current)
  {
    QuotesAppend(s.current, "\\");
    assert Quotes("\\") == 0;
  }

  /** Spliced between words, a candidate is read back as one argument exactly when it is faithful. */
  lemma SpliceAtGap(args: seq<string>, c: string)
    ensures Finish(SplitFrom(Gap(args), Escape(c))) == Ok(args + [c]) <==> Faithful(c)
  {
    var s' := SplitFrom(Gap(args), Escape(c));
    if Faithful(c) {
      SplitFaithful(Gap(args), '/', c);
      assert "" + c == c;
    }
    if c == "" {
      assert s' == Gap(args) && |args| < |args + [c]|;
    } else if Finish(s') == Ok(args + [c]) {
      EscapeYields(Gap(args), '/', c);
      WordsAppend(args, c);
      WordsAppend(s'.args, Text(s'));
      QuotesOfText(s');
      assert Quotes("") == 0;
    }
  }

  // ---------- Splicing at the cursor ----------

  /** A head the closing-backslash rule does not touch is split as it is fed, whatever follows it. */
  lemma {:induction false} SplitAfter(s: Lex, a: string, b: string)
    requires !ClosesByBackslash(s, a) && !(FeedAll(s, a).quote == Double && FeedAll(s, a).escaped)
    ensures SplitFrom(s, a + b) == SplitFrom(FeedAll(s, a), b)
    decreases |a|
  {
    if a == "" {
      assert a + b == b;
    } else {
      var next := Feed(s, a[0]);
      assert (a + b)[0] == a[0] && (a + b)[1..] == a[1..] + b;
      if |a| == 1 {
        assert FeedAll(s, a) == next;
      } else {
        assert (a + b)[1] == a[1];
        if |a| > 2 { assert (a + b)[2] == a[2]; }
      }
      assert !ClosingBackslash(s, a + b);
      SplitAfter(next, a[1..], b);
    }
  }

  /** The closing-backslash rule never applies to text without double quotes. */
  lemma PlainHead(head: string)
    requires '"' !in head
    ensures !ClosesByBackslash(START, head)
  {
    NoDoubleQuoteNoClosing(START, head);
  }

  /**
   Accepting a candidate at an unquoted cursor: the words before the cursor are kept and the candidate is read back as
   exactly one further argument, if and only if it is faithful.
   */
  lemma SpliceRoundTrip(content: string, c: string)
    requires CompletionCursor(content).quoteChar == Bare
    requires !ClosesByBackslash(START, CompletionCursor(content).head)
    ensures var s, cursor := CompletionScan(content), CompletionCursor(content);
      && Split(cursor.head) == Ok(s.lex.args)
      && (Split(cursor.head + FormatCompletionCandidate(c, Bare, false)) == Ok(s.lex.args + [c]) <==> Faithful(c))
  {
    var s, cursor := CompletionScan(content), CompletionCursor(content);
    assert ScanOk(s, content);
    assert FeedAll(START, cursor.head) == Gap(s.lex.args);
    SplitAfter(START, cursor.head, "");
    assert cursor.head + "" == cursor.head;
    SplitAfter(START, cursor.head, Escape(c));
    SpliceAtGap(s.lex.args, c);
  }

  // ---------- Splicing into an open single quote ----------

  function Ticks(text: string): nat {
    if text == "" then 0 else (if text[0] == '\'' then 1 else 0) + Ticks(text[1..])
  }

  function TicksAll(words: seq<string>): nat {
    if words == [] then 0 else TicksAll(words[..|words| - 1]) + Ticks(words[|words| - 1])
  }

  function TicksRead(s: Lex): nat {
    TicksAll(s.args) + Ticks(s.current)
  }

  lemma {:induction false} TicksAppend(a: string, b: string)
    ensures Ticks(a + b) == Ticks(a) + Ticks(b)
    decreases |a|
  {
    if a == "" {
      assert a + b == b;
    } else {
      assert (a + b)[0] == a[0] && (a + b)[1..] == a[1..] + b;
      TicksAppend(a[1..], b);
    }
  }

  lemma TicksAllAppend(words: seq<string>, w: string)
    ensures TicksAll(words + [w]) == TicksAll(words) + Ticks(w)
  {
    assert (words + [w])[..|words|] == words;
  }

  lemma FeedTicks(s: Lex, r: char)
    ensures TicksRead(Feed(s, r)) <= TicksRead(s) + Ticks([r])
    ensures s.quote == Single && !s.escaped && r == '\'' ==> TicksRead(Feed(s, r)) == TicksRead(s)
  {
    TicksOfOne(r);
    FeedEffect(s, r);
    match EffectOf(s, r)
    case Silent =>
    case Added => TicksAppend(s.current, [r]);
    case AddedEscaped => TicksAppend(s.current, ['\\', r]);
    case Ended => TicksAllAppend(s.args, s.current);
  }

  lemma TicksOfOne(r: char)
    ensures Ticks("") == 0 && Ticks("\\") == 0 && Ticks(['\\', r]) == Ticks([r])
  {
    assert ['\\', r][1..] == [r];
  }

  /** A single quote after `t` has led to `s'` and brought no text, unless the last rune of `t` escapes it. */
  predicate QuoteIsNoText(s: Lex, t: string, s': Lex) {
    && WellFormed(s')
    && (s'.quote == Bare ==>
          || TicksRead(s') <= TicksRead(s) + Ticks(t)
          || (s'.inToken && !s'.escaped && '\'' in s'.current && s'.current[|s'.current| - 1] == '\''
              && (if t == "" then s.escaped else t[|t| - 1] == '\\')))
  }

  lemma OneQuoteYieldsNothing(s: Lex, t: string)
    requires WellFormed(s) && t == ""
    ensures QuoteIsNoText(s, t, Feed(s, '\''))
  {
    FeedTicks(s, '\'');
  }

  lemma ClosingAddsNoTick(s: Lex, t: string, s': Lex)
    requires |t| >= 2 && !s.escaped && QuoteIsNoText(Closed(s), t[2..], s')
    ensures QuoteIsNoText(s, t, s')
  {
    assert t[1..][1..] == t[2..];
    TicksOfOne('\\');
    TicksAppend(s.current, "\\");
  }

  lemma FeedingAddsItsTicks(s: Lex, t: string, s': Lex)
    requires t != "" && QuoteIsNoText(Feed(s, t[0]), t[1..], s')
    ensures QuoteIsNoText(s, t, s')
  {
    FeedTicks(s, t[0]);
    FeedEffect(s, t[0]);
    assert Ticks([t[0]]) + Ticks(t[1..]) == Ticks(t);
  }

  /** A closing quote after `t` is not read as text, unless a backslash at the end of `t` escapes it. */
  lemma {:induction false} FinalQuoteYieldsNothing(s: Lex, t: string)
    requires WellFormed(s)
    ensures QuoteIsNoText(s, t, SplitFrom(s, t + "'"))
    decreases |t|
  {
    var line := t + "'";
    if t == "" {
      assert line[1..] == "" && SplitFrom(s, line) == Feed(s, '\'');
      OneQuoteYieldsNothing(s, t);
    } else if ClosingBackslash(s, line) {
      assert |t| >= 2 && line[2..] == t[2..] + "'";
      assert SplitFrom(s, line) == SplitFrom(Closed(s), t[2..] + "'");
      FinalQuoteYieldsNothing(Closed(s), t[2..]);
      ClosingAddsNoTick(s, t, SplitFrom(Closed(s), t[2..] + "'"));
    } else {
      assert line[0] == t[0] && line[1..] == t[1..] + "'";
      assert SplitFrom(s, line) == SplitFrom(Feed(s, t[0]), t[1..] + "'");
      FinalQuoteYieldsNothing(Feed(s, t[0]), t[1..]);
      FeedingAddsItsTicks(s, t, SplitFrom(Feed(s, t[0]), t[1..] + "'"));
    }
  }

  function InQuote(args: seq<string>, prefix: string): Lex {
    Lex(args, prefix, true, Single, false)
  }

  lemma {:induction false} FeedQuoted(args: seq<string>, prefix: string, a: string, rest: string)
    requires '\'' !in a
    ensures SplitFrom(InQuote(args, prefix), a + rest) == SplitFrom(InQuote(args, prefix + a), rest)
    decreases |a|
  {
    if a == "" {
      assert a + rest == rest && prefix + a == prefix;
    } else {
      assert (a + rest)[0] == a[0] && (a + rest)[1..] == a[1..] + rest;
      assert Feed(InQuote(args, prefix), a[0]) == InQuote(args, prefix + [a[0]]);
      FeedQuoted(args, prefix + [a[0]], a[1..], rest);
      assert prefix + [a[0]] + a[1..] == prefix + a;
    }
  }

  lemma {:induction false} FirstTick(c: string) returns (a: string, b: string)
    requires '\'' in c
    ensures c == a + "'" + b && '\'' !in a
    decreases |c|
  {
    if c[0] == '\'' {
      a, b := "", c[1..];
    } else {
      a, b := FirstTick(c[1..]);
      a := [c[0]] + a;
    }
  }

  lemma EarlyQuoteSpoils(args: seq<string>, prefix: string, a: string, b: string)
    requires '\'' !in a
    ensures Finish(SplitFrom(InQuote(args, prefix), a + "'" + b + "'")) != Ok(args + [prefix + (a + "'" + b)])
  {
    var line, c := a + "'" + b + "'", a + "'" + b;
    var rest := "'" + (b + "'");
    assert line == a + rest;
    FeedQuoted(args, prefix, a, rest);
    var s := InQuote(args, prefix + a);
    var s1 := Feed(s, '\'');
    assert rest[0] == '\'' && rest[1..] == b + "'";
    assert SplitFrom(s, rest) == SplitFrom(s1, b + "'");
    assert prefix + c == (prefix + a) + ("'" + b);
    FirstQuoteSpoils(args, prefix + a, b);
  }

  lemma FirstQuoteSpoils(args: seq<string>, before: string, b: string)
    ensures var s1 := Feed(InQuote(args, before), '\'');
      Finish(SplitFrom(s1, b + "'")) != Ok(args + [before + ("'" + b)])
  {
    var s1 := Feed(InQuote(args, before), '\'');
    FinalQuoteYieldsNothing(s1, b);
    var s' := SplitFrom(s1, b + "'");
    if Finish(s') == Ok(args + [before + ("'" + b)]) {
      assert ("'" + b)[1..] == b;
      TicksAppend(before, "'" + b);
      TicksAllAppend(args, before + ("'" + b));
      TicksAllAppend(s'.args, Text(s'));
      TicksAppend(s'.current, "\\");
    }
  }

  /** The same with the cursor in an open single quote: exactly the candidates without a single quote survive. */
  lemma QuotedSpliceRoundTrip(content: string, c: string)
    requires !ClosesByBackslash(START, CompletionCursor(content).head)
    requires CompletionCursor(content).quoteChar == Single && !CompletionCursor(content).isCommand
    ensures var s, cursor := CompletionScan(content), CompletionCursor(content);
      Split(cursor.head + FormatCompletionCandidate(c, Single, false)) ==
      Ok(s.lex.args + [cursor.prefixBeforeQuote + c])
      <==> '\'' !in c
  {
    var s, cursor := CompletionScan(content), CompletionCursor(content);
    assert ScanOk(s, content);
    var prefix := cursor.prefixBeforeQuote;
    assert FeedAll(START, cursor.head) == InQuote(s.lex.args, prefix);
    SplitAfter(START, cursor.head, c + "'");
    if '\'' in c {
      var a, b := FirstTick(c);
      EarlyQuoteSpoils(s.lex.args, prefix, a, b);
    } else {
      FeedQuoted(s.lex.args, prefix, c, "'");
      var last := InQuote(s.lex.args, prefix + c);
      assert SplitFrom(last, "'") == Feed(last, '\'');
    }
  }

  // ---------- Splicing into an open double quote ----------

  lemma FeedLoses(s: Lex, r: char)
    ensures LengthRead(Feed(s, r)) <= LengthRead(s) + 1
  {
    FeedEffect(s, r);
    if EffectOf(s, r).Ended? {
      WordsAppend(s.args, s.current);
    } else {
      assert LengthAll(Feed(s, r).args) == LengthAll(s.args);
    }
  }

  /** However text is read, a closing quote after it costs one character if the line is complete after it. */
  lemma {:induction false} FinalDoubleQuoteLoses(s: Lex, t: string)
    ensures var s' := SplitFrom(s, t + "\""); s'.quote == Bare ==> LengthRead(s') <= LengthRead(s) + |t|
    decreases |t|
  {
    var line := t + "\"";
    if t == "" {
      assert line[1..] == "" && SplitFrom(s, line) == Feed(s, '"');
    } else if ClosingBackslash(s, line) {
      if |t| == 1 {
        assert line[2..] == "" && SplitFrom(s, line) == Closed(s);
      } else {
        assert line[2..] == t[2..] + "\"";
        FinalDoubleQuoteLoses(Closed(s), t[2..]);
      }
    } else {
      assert line[0] == t[0] && line[1..] == t[1..] + "\"";
      FeedLoses(s, t[0]);
      FinalDoubleQuoteLoses(Feed(s, t[0]), t[1..]);
    }
  }

  function InDouble(args: seq<string>, prefix: string): Lex {
    Lex(args, prefix, true, Double, false)
  }

  /** No double quote, and no two backslashes side by side. */
  predicate Quotable(c: string) {
    '"' !in c && forall i :: 0 < i < |c| ==> !(c[i - 1] == '\\' && c[i] == '\\')
  }

  lemma QuotableRest(c: string, k: nat)
    requires (k == 1 && |c| > 0 && c[0] != '"' && c[0] != '\\')
          || (k == 2 && |c| > 1 && c[0] == '\\' && c[1] != '"' && c[1] != '\\')
    ensures Quotable(c) <==> Quotable(c[k..])
  {
    var rest := c[k..];
    assert c == c[..k] + rest && '"' !in c[..k];
    if Quotable(rest) {
      forall i | 0 < i < |c| ensures !(c[i - 1] == '\\' && c[i] == '\\') {
        if i > k { assert c[i - 1] == rest[i - 1 - k] && c[i] == rest[i - k]; }
      }
    }
    if Quotable(c) {
      forall i | 0 < i < |rest| ensures !(rest[i - 1] == '\\' && rest[i] == '\\') {
        assert rest[i - 1] == c[i - 1 + k] && rest[i] == c[i + k];
      }
    }
  }

  predicate ReadsAs(s: Lex, args: seq<string>, word: string) {
    s.quote == Bare && s.inToken && s.args == args && Text(s) == word
  }

  /** Inside a double quote, a candidate and its closing quote are read as the candidate exactly if it is quotable. */
  lemma {:induction false} DoubleQuoted(args: seq<string>, prefix: string, c: string)
    ensures ReadsAs(SplitFrom(InDouble(args, prefix), c + "\""), args, prefix + c) <==> Quotable(c)
    decreases |c|
  {
    var s, line := InDouble(args, prefix), c + "\"";
    if c == "" {
      assert line[1..] == "" && SplitFrom(s, line) == Feed(s, '"') && prefix + c == prefix;
    } else if c[0] == '"' {
      ClosedEarly(args, prefix, c);
    } else if c[0] == '\\' {
      BackslashQuoted(args, prefix, c);
    } else {
      assert line[0] == c[0] && line[1..] == c[1..] + "\"";
      assert SplitFrom(s, line) == SplitFrom(InDouble(args, prefix + [c[0]]), c[1..] + "\"");
      assert prefix + [c[0]] + c[1..] == prefix + c;
      QuotableRest(c, 1);
      DoubleQuoted(args, prefix + [c[0]], c[1..]);
    }
  }

  lemma {:induction false} BackslashQuoted(args: seq<string>, prefix: string, c: string)
    requires c != "" && c[0] == '\\'
    ensures ReadsAs(SplitFrom(InDouble(args, prefix), c + "\""), args, prefix + c) <==> Quotable(c)
    decreases |c|, 0
  {
    var s, line := InDouble(args, prefix), c + "\"";
    assert line[0] == '\\';
    if |c| == 1 {
      assert c == "\\" && line[1] == '"' && line[2..] == "";
      assert SplitFrom(s, line) == Closed(s);
    } else if c[1] == '"' || c[1] == '\\' {
      PairCollapses(args, prefix, c);
    } else {
      var s1 := Feed(s, '\\');
      var tail := line[1..];
      assert tail[0] == c[1] && tail[1..] == c[2..] + "\"";
      assert SplitFrom(s, line) == SplitFrom(s1, tail) == SplitFrom(Feed(s1, c[1]), tail[1..]);
      assert Feed(s1, c[1]) == InDouble(args, prefix + ['\\', c[1]]);
      assert prefix + ['\\', c[1]] + c[2..] == prefix + c;
      QuotableRest(c, 2);
      DoubleQuoted(args, prefix + ['\\', c[1]], c[2..]);
    }
  }

  lemma ReadLength(s: Lex, args: seq<string>, word: string)
    requires ReadsAs(s, args, word)
    ensures LengthRead(s) == LengthAll(args) + |word|
  {
  }

  /** A double quote inside the candidate closes the quotation before its end. */
  lemma ClosedEarly(args: seq<string>, prefix: string, c: string)
    requires c != "" && c[0] == '"'
    ensures !ReadsAs(SplitFrom(InDouble(args, prefix), c + "\""), args, prefix + c)
  {
    var s, line := InDouble(args, prefix), c + "\"";
    assert line[0] == '"' && line[1..] == c[1..] + "\"";
    FinalDoubleQuoteLoses(Feed(s, '"'), c[1..]);
    var s' := SplitFrom(s, line);
    if ReadsAs(s', args, prefix + c) { ReadLength(s', args, prefix + c); }
  }

  /** A backslash before a backslash or a double quote is lost, or ends the quotation before its end. */
  lemma PairCollapses(args: seq<string>, prefix: string, c: string)
    requires |c| > 1 && c[0] == '\\' && (c[1] == '"' || c[1] == '\\')
    ensures !ReadsAs(SplitFrom(InDouble(args, prefix), c + "\""), args, prefix + c)
  {
    var s, line := InDouble(args, prefix), c + "\"";
    var s', rest := SplitFrom(s, line), c[2..];
    assert line[0] == '\\' && line[1] == c[1] && line[2..] == rest + "\"";
    if ClosingBackslash(s, line) {
      FinalDoubleQuoteLoses(Closed(s), rest);
    } else {
      EscapedPair(s, line);
      FinalDoubleQuoteLoses(Feed(Feed(s, '\\'), c[1]), rest);
    }
    if ReadsAs(s', args, prefix + c) { ReadLength(s', args, prefix + c); }
  }

  lemma EscapedPair(s: Lex, line: string)
    requires s.quote == Double && !s.escaped && |line| > 1 && line[0] == '\\' && !ClosingBackslash(s, line)
    ensures SplitFrom(s, line) == SplitFrom(Feed(Feed(s, '\\'), line[1]), line[2..])
  {
    var s1, tail := Feed(s, '\\'), line[1..];
    assert tail[0] == line[1] && tail[1..] == line[2..] && !ClosingBackslash(s1, tail);
  }

  /** A line that ends in a double quote ends inside a word. */
  lemma {:induction false} EndsInWord(s: Lex, t: string)
    ensures SplitFrom(s, t + "\"").inToken
    decreases |t|
  {
    var line := t + "\"";
    if t == "" {
      assert line[1..] == "" && SplitFrom(s, line) == Feed(s, '"');
    } else if ClosingBackslash(s, line) {
      if |t| == 1 {
        assert line[2..] == "";
      } else {
        assert line[2..] == t[2..] + "\"";
        EndsInWord(Closed(s), t[2..]);
      }
    } else {
      assert line[0] == t[0] && line[1..] == t[1..] + "\"";
      EndsInWord(Feed(s, t[0]), t[1..]);
    }
  }

  /** With the cursor in an open double quote: exactly the quotable candidates survive. */
  lemma DoubleSpliceRoundTrip(content: string, c: string)
    requires !ClosesByBackslash(START, CompletionCursor(content).head)
    requires CompletionCursor(content).quoteChar == Double && !CompletionCursor(content).isCommand
    ensures var s, cursor := CompletionScan(content), CompletionCursor(content);
      Split(cursor.head + FormatCompletionCandidate(c, Double, false)) ==
      Ok(s.lex.args + [cursor.prefixBeforeQuote + c])
      <==> Quotable(c)
  {
    var s, cursor := CompletionScan(content), CompletionCursor(content);
    assert ScanOk(s, content);
    var args, prefix := s.lex.args, cursor.prefixBeforeQuote;
    assert FeedAll(START, cursor.head) == InDouble(args, prefix);
    SplitAfter(START, cursor.head, c + "\"");
    DoubleQuoted(args, prefix, c);
    var s' := SplitFrom(START, cursor.head + (c + "\""));
    ReadExactly(s', args, prefix, c);
  }

  /** What it takes for such a line to split into the given words. */
  lemma ReadExactly(s: Lex, args: seq<string>, prefix: string, c: string)
    requires s == SplitFrom(InDouble(args, prefix), c + "\"")
    ensures Finish(s) == Ok(args + [prefix + c]) <==> ReadsAs(s, args, prefix + c)
  {
    EndsInWord(InDouble(args, prefix), c);
    if s.quote == Bare {
      var words := args + [prefix + c];
      assert words[..|args|] == args && words[|args|] == prefix + c;
      assert (s.args + [Text(s)])[..|s.args|] == s.args;
    }
  }
}
