/**
 How completion relates to execution: the completion lexer sees what splitting will see, and an accepted candidate
 becomes exactly one argument.
 */
module Completion {
  import opened Prelude
  import opened CommandLine

  // ---------- The two lexers in lockstep ----------

  /** Somewhere in `rest` the splitter applies its closing-backslash rule. */
  predicate ClosesByBackslash(s: Lex, rest: string)
    decreases |rest|
  {
    rest != "" && (ClosingBackslash(s, rest) || ClosesByBackslash(Feed(s, rest[0]), rest[1..]))
  }

  lemma {:induction false} SameUnlessClosed(s: Lex, rest: string)
    requires !ClosesByBackslash(s, rest)
    ensures SplitFrom(s, rest) == FeedAll(s, rest)
    decreases |rest|
  {
    if rest != "" {
      SameUnlessClosed(Feed(s, rest[0]), rest[1..]);
    }
  }

  /** Every word read so far, the last one perhaps unfinished or empty. */
  function Words(s: Lex): seq<string> {
    s.args + [s.current]
  }

  predicate DifferAt(a: seq<string>, b: seq<string>, k: nat, p: nat) {
    k < |a| && k < |b| && p < |a[k]| && p < |b[k]| && a[k][p] != b[k][p]
  }

  lemma FeedKeepsWords(s: Lex, r: char)
    ensures |Words(s)| <= |Words(Feed(s, r))|
    ensures forall k :: 0 <= k < |Words(s)| ==> Words(s)[k] <= Words(Feed(s, r))[k]
  {
  }

  lemma {:induction false} FeedAllKeepsWords(s: Lex, text: string)
    ensures |Words(s)| <= |Words(FeedAll(s, text))|
    ensures forall k :: 0 <= k < |Words(s)| ==> Words(s)[k] <= Words(FeedAll(s, text))[k]
    decreases |text|
  {
    if text != "" {
      FeedKeepsWords(s, text[0]);
      FeedAllKeepsWords(Feed(s, text[0]), text[1..]);
    }
  }

  lemma {:induction false} SplitFromKeepsWords(s: Lex, text: string)
    ensures |Words(s)| <= |Words(SplitFrom(s, text))|
    ensures forall k :: 0 <= k < |Words(s)| ==> Words(s)[k] <= Words(SplitFrom(s, text))[k]
    decreases |text|
  {
    if text != "" {
      if ClosingBackslash(s, text) {
        SplitFromKeepsWords(Closed(s), text[2..]);
      } else {
        FeedKeepsWords(s, text[0]);
        SplitFromKeepsWords(Feed(s, text[0]), text[1..]);
      }
    }
  }

  lemma {:induction false} ClosedDiverges(s: Lex, rest: string) returns (k: nat, p: nat)
    requires ClosesByBackslash(s, rest)
    ensures DifferAt(Words(SplitFrom(s, rest)), Words(FeedAll(s, rest)), k, p)
    decreases |rest|
  {
    if ClosingBackslash(s, rest) {
      k, p := |s.args|, |s.current|;
      var split, feed := Closed(s), Feed(Feed(s, rest[0]), rest[1]);
      assert feed.current == s.current + "\"" && split.current == s.current + "\\";
      SplitFromKeepsWords(split, rest[2..]);
      FeedAllKeepsWords(feed, rest[2..]);
      assert FeedAll(s, rest) == FeedAll(feed, rest[1..][1..]) && rest[1..][1..] == rest[2..];
      assert Words(split)[k][p] == '\\' && Words(feed)[k][p] == '"';
    } else {
      k, p := ClosedDiverges(Feed(s, rest[0]), rest[1..]);
    }
  }

  /** The two lexers read the same words from a line exactly when the closing-backslash rule never applies to it. */
  lemma SameWordsIff(content: string)
    ensures Words(SplitFrom(START, content)) == Words(CompletionScan(content).lex) <==>
      !ClosesByBackslash(START, content)
  {
    assert ScanOk(CompletionScan(content), content);
    if ClosesByBackslash(START, content) {
      var k, p := ClosedDiverges(START, content);
    } else {
      SameUnlessClosed(START, content);
    }
  }

  lemma {:induction false} NoDoubleQuoteNoClosing(s: Lex, rest: string)
    requires '"' !in rest && s.quote != Double
    ensures !ClosesByBackslash(s, rest) && SplitFrom(s, rest).quote != Double
    decreases |rest|
  {
    if rest != "" {
      NoDoubleQuoteNoClosing(Feed(s, rest[0]), rest[1..]);
    }
  }

  /**
   On a line that splits, the cursor names the same command, counts the finished arguments, and has the last
   argument as its partial word exactly when it stands inside a word.
   */
  lemma CursorAgreesWithSplit(content: string, args: seq<string>)
    requires !ClosesByBackslash(START, content)
    requires Split(content) == Ok(args)
    ensures var c := CompletionCursor(content);
      var inside := CompletionScan(content).lex.inToken;
      && c.argIndex == |args| - (if inside then 1 else 0)
      && (if inside then c.partial == args[|args| - 1] else c.partial == "")
      && (c.isCommand <==> c.argIndex == 0)
      && c.cmd == (if args == [] then "" else args[0])
      && c.quoteChar == Bare
  {
    assert ScanOk(CompletionScan(content), content);
    SameUnlessClosed(START, content);
  }

  // ---------- Inside an open quote ----------

  /** What ends a word in an open quote: a backslash that is waiting stands for itself, then the quote is closed. */
  function Closing(s: Lex): string {
    (if s.escaped then "\\" else "") + if s.quote == Single then "'" else "\""
  }

  lemma {:induction false} NoEscapeInSingle(s: Lex, text: string)
    requires s.escaped ==> s.quote != Single
    ensures var end := FeedAll(s, text); end.escaped ==> end.quote != Single
    decreases |text|
  {
    if text != "" { NoEscapeInSingle(Feed(s, text[0]), text[1..]); }
  }

  lemma ClosingEnds(s: Lex)
    requires s.quote != Bare && (s.escaped ==> s.quote == Double)
    ensures FeedAll(s, Closing(s)) == Lex(s.args, Text(s), true, Bare, false)
    ensures !ClosesByBackslash(s, Closing(s))
  {
    if s.escaped {
      var c, t := "\\\"", Feed(s, '\\');
      assert Closing(s) == c && c[1..] == "\"";
      assert EscapedText('\\', Double) == "\\" && t == s.(escaped := false, inToken := true, current := Text(s));
      QuoteEnds(t);
      assert FeedAll(s, c) == FeedAll(t, c[1..]);
    } else {
      assert Closing(s) == if s.quote == Single then "'" else "\"";
      QuoteEnds(s);
    }
  }

  lemma QuoteEnds(s: Lex)
    requires s.quote != Bare && !s.escaped
    ensures var c := if s.quote == Single then "'" else "\"";
      FeedAll(s, c) == s.(inToken := true, quote := Bare) && !ClosesByBackslash(s, c)
  {
    var c := if s.quote == Single then "'" else "\"";
    assert c[1..] == "" && FeedAll(s, c) == FeedAll(Feed(s, c[0]), c[1..]);
  }

  /** Closing an open quote does not make the rule apply. */
  lemma {:induction false} ClosingDoesNotClose(s: Lex, content: string)
    requires !ClosesByBackslash(s, content) && (s.escaped ==> s.quote != Single)
    requires FeedAll(s, content).quote != Bare
    ensures !ClosesByBackslash(s, content + Closing(FeedAll(s, content)))
    decreases |content|
  {
    NoEscapeInSingle(s, content);
    var end := FeedAll(s, content);
    var more := content + Closing(end);
    if content == "" {
      assert more == Closing(s);
      ClosingEnds(s);
    } else {
      assert more[0] == content[0] && more[1..] == content[1..] + Closing(end);
      NoRuleAcross(s, content);
      ClosingDoesNotClose(Feed(s, content[0]), content[1..]);
    }
  }

  lemma NoRuleAcross(s: Lex, content: string)
    requires content != "" && !ClosingBackslash(s, content)
    ensures !ClosingBackslash(s, content + Closing(FeedAll(s, content)))
  {
    var end := FeedAll(s, content);
    var more := content + Closing(end);
    assert forall i :: 0 <= i < |content| ==> more[i] == content[i];
    if |content| == 1 {
      var t := Feed(s, content[0]);
      assert content[1..] == "" && end == FeedAll(t, "") == t;
      assert more[1] == Closing(end)[0];
    }
  }

  /**
   In an open quote, where the line does not split yet, the cursor says what splitting will say once the quote is
   closed: the same command, the number of arguments before this one, and the text of this one as far as it goes.
   */
  lemma CursorInsideQuote(content: string)
    requires !ClosesByBackslash(START, content) && CompletionScan(content).lex.quote != Bare
    ensures Split(content).Failed?
    ensures Split(content + Closing(CompletionScan(content).lex)).Ok?
    ensures var args := Split(content + Closing(CompletionScan(content).lex)).value;
      var c := CompletionCursor(content);
      && |args| == c.argIndex + 1 && args[c.argIndex] == c.partial && args[0] == c.cmd
      && (c.isCommand <==> c.argIndex == 0) && c.quoteChar == CompletionScan(content).lex.quote
  {
    var s := CompletionScan(content).lex;
    assert ScanOk(CompletionScan(content), content);
    SameUnlessClosed(START, content);
    NoEscapeInSingle(START, content);
    ClosingDoesNotClose(START, content);
    SameUnlessClosed(START, content + Closing(s));
    FeedAllAppend(START, content, Closing(s));
    ClosingEnds(s);
  }

  /** A letter at the end of a line does not make the rule apply. */
  lemma {:induction false} LetterDoesNotClose(s: Lex, content: string)
    requires !ClosesByBackslash(s, content)
    ensures !ClosesByBackslash(s, content + "x")
    decreases |content|
  {
    var more := content + "x";
    if content == "" {
      assert more[1..] == "";
    } else {
      assert more[0] == content[0] && more[1..] == content[1..] + "x";
      if |content| > 1 {
        assert more[1] == content[1];
        if |content| > 2 { assert more[2] == content[2]; }
      }
      LetterDoesNotClose(Feed(s, content[0]), content[1..]);
    }
  }

  /** Standing inside a word means that a further letter extends the last argument instead of starting a new one. */
  lemma InsideExtendsLastArgument(content: string, args: seq<string>)
    requires !ClosesByBackslash(START, content) && Split(content) == Ok(args)
    ensures Split(content + "x").Ok?
    ensures var more := Split(content + "x").value;
      if CompletionScan(content).lex.inToken
      then |more| == |args| > 0 && more[..|args| - 1] == args[..|args| - 1]
      else more == args + ["x"]
  {
    var s := FeedAll(START, content);
    assert ScanOk(CompletionScan(content), content);
    LetterDoesNotClose(START, content);
    SameUnlessClosed(START, content);
    SameUnlessClosed(START, content + "x");
    FeedAllAppend(START, content, "x");
    assert FeedAll(s, "x") == Feed(s, 'x');
    if !s.inToken {
      assert Feed(s, 'x').current == "x" && Finish(Feed(s, 'x')) == Ok(s.args + ["x"]);
    }
  }

  /** The rule matters: on a quoted directory "\" splitting sees a finished word, completion an open quote. */
  lemma ClosingBackslashSeparates()
    ensures Split("\"\\\"") == Ok(["\\"])
    ensures CompletionCursor("\"\\\"").partial == "\"" && CompletionCursor("\"\\\"").quoteChar == Double
  {
    var line := "\"\\\"";
    var open := Lex([], "", true, Double, false);
    assert Feed(START, '"') == open && line[0] == '"' && line[1..] == "\\\"";
    assert ClosingBackslash(open, line[1..]) && line[1..][2..] == "";
    assert SplitFrom(START, line) == SplitFrom(open, line[1..]) == Closed(open);
    assert Closed(open).current == "\\" && [] + ["\\"] == ["\\"];
    assert Finish(Closed(open)) == Ok(["\\"]);
    var tail := line[1..];
    assert tail[0] == '\\' && tail[1..][0] == '"' && tail[1..][1..] == "";
    assert ScanOk(CompletionScan(line), line);
    assert FeedAll(START, line) == FeedAll(open, tail) == FeedAll(Feed(open, '\\'), tail[1..])
        == Feed(Feed(open, '\\'), '"') == Lex([], "\"", true, Double, false);
  }
}
