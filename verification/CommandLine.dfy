/**
 The shell's two hand-written lexers: the one that splits a command line into arguments, and the one that finds
 what is being completed at the cursor. They share a transition on runes; only splitting looks ahead.
 */
module CommandLine {
  import opened Prelude

  datatype Quote = Bare | Single | Double

  /** The arguments finished so far, the text of the one being read, and the state of the automaton. */
  datatype Lex = Lex(args: seq<string>, current: string, inToken: bool, quote: Quote, escaped: bool)

  const START := Lex([], "", false, Bare, false)

  /** The runes an unquoted backslash removes itself in front of. */
  const ESCAPABLE := {' ', '\t', '\n', '\r', '\'', '"', '\\'}

  function EscapedText(r: char, quote: Quote): string {
    if quote == Double then if r == '"' || r == '\\' then [r] else ['\\', r]
    else if r in ESCAPABLE then [r] else ['\\', r]
  }

  /** One rune, without looking ahead. */
  function Feed(s: Lex, r: char): Lex {
    if s.escaped then s.(escaped := false, inToken := true, current := s.current + EscapedText(r, s.quote))
    else
      match s.quote
      case Single =>
        if r == '\'' then s.(inToken := true, quote := Bare)
        else s.(inToken := true, current := s.current + [r])
      case Double =>
        if r == '\\' then s.(inToken := true, escaped := true)
        else if r == '"' then s.(inToken := true, quote := Bare)
        else s.(inToken := true, current := s.current + [r])
      case Bare =>
        if r == '\\' then s.(inToken := true, escaped := true)
        else if r == '\'' then s.(inToken := true, quote := Single)
        else if r == '"' then s.(inToken := true, quote := Double)
        else if IsSpace(r) then
          if s.inToken then s.(args := s.args + [s.current], current := "", inToken := false) else s
        else s.(inToken := true, current := s.current + [r])
  }

  function FeedAll(s: Lex, text: string): Lex
    decreases |text|
  {
    if text == "" then s else FeedAll(Feed(s, text[0]), text[1..])
  }

  lemma {:induction false} FeedAllAppend(s: Lex, a: string, b: string)
    ensures FeedAll(s, a + b) == FeedAll(FeedAll(s, a), b)
    decreases |a|
  {
    if a == "" {
      assert a + b == b;
    } else {
      assert (a + b)[0] == a[0] && (a + b)[1..] == a[1..] + b;
      FeedAllAppend(Feed(s, a[0]), a[1..], b);
    }
  }

  // ---------- Splitting ----------

  /** A backslash before a closing double quote at the end of a word is a literal, as in "C:\dir\". */
  predicate ClosingBackslash(s: Lex, rest: string) {
    && s.quote == Double && !s.escaped
    && |rest| >= 2 && rest[0] == '\\' && rest[1] == '"'
    && (|rest| == 2 || IsSpace(rest[2]))
  }

  function Closed(s: Lex): Lex {
    s.(inToken := true, quote := Bare, current := s.current + "\\")
  }

  function SplitFrom(s: Lex, rest: string): Lex
    decreases |rest|
  {
    if rest == "" then s
    else if ClosingBackslash(s, rest) then SplitFrom(Closed(s), rest[2..])
    else SplitFrom(Feed(s, rest[0]), rest[1..])
  }

  /** The text of the word being read, with a trailing unquoted backslash kept as a literal. */
  function Text(s: Lex): string {
    if s.escaped then s.current + "\\" else s.current
  }

  function Finish(s: Lex): Result<seq<string>> {
    if s.quote != Bare then Failed
    else Ok(if s.inToken then s.args + [Text(s)] else s.args)
  }

  function Split(input: string): Result<seq<string>> {
    Finish(SplitFrom(START, input))
  }

  /** splitCommandLine. */
  method SplitCommandLine(input: string) returns (r: Result<seq<string>>)
    ensures r == Split(input)
  {
    var args: seq<string>, current, inToken, inQuote, escaped := [], "", false, Bare, false;
    var i := 0;
    while i < |input|
      invariant 0 <= i <= |input|
      invariant SplitFrom(Lex(args, current, inToken, inQuote, escaped), input[i..]) == SplitFrom(START, input)
    {
      var r := input[i];
      ghost var rest := input[i..];
      assert rest[0] == r && rest[1..] == input[i + 1..];
      if escaped {
        escaped := false;
        inToken := true;
        current := current + EscapedText(r, inQuote);
      } else if inQuote == Single {
        inToken := true;
        if r == '\'' {
          inQuote := Bare;
        } else {
          current := current + [r];
        }
      } else if inQuote == Double {
        inToken := true;
        if r == '\\' {
          if i + 1 < |input| && input[i + 1] == '"' && (i + 1 == |input| - 1 || IsSpace(input[i + 2])) {
            assert rest[2..] == input[i + 2..];
            current := current + "\\";
            inQuote := Bare;
            i := i + 1;
          } else {
            escaped := true;
          }
        } else if r == '"' {
          inQuote := Bare;
        } else {
          current := current + [r];
        }
      } else if r == '\\' {
        escaped := true;
        inToken := true;
      } else if r == '\'' {
        inQuote := Single;
        inToken := true;
      } else if r == '"' {
        inQuote := Double;
        inToken := true;
      } else if IsSpace(r) {
        if inToken {
          args := args + [current];
          current := "";
          inToken := false;
        }
      } else {
        inToken := true;
        current := current + [r];
      }
      i := i + 1;
    }
    if escaped {
      current := current + "\\";
    }
    if inQuote != Bare {
      return Failed;
    }
    if inToken {
      args := args + [current];
    }
    return Ok(args);
  }

  // ---------- Finding what is completed ----------

  datatype Cursor = Cursor(
    cmd: string, argIndex: nat, isCommand: bool, partial: string, quoteChar: Quote, head: string,
    prefixBeforeQuote: string)

  /** The completion lexer: the shared automaton plus where the word and its open quote began. */
  datatype Scan = Scan(lex: Lex, tokenStart: nat, quoteStart: Option<nat>, prefixBeforeQuote: string)

  const SCAN_START := Scan(START, 0, None, "")

  function ScanRune(s: Scan, r: char, i: nat): Scan {
    var next := Feed(s.lex, r);
    var opens := s.lex.quote == Bare && next.quote != Bare;
    var closes := s.lex.quote != Bare && next.quote == Bare;
    Scan(next,
         if !s.lex.inToken && next.inToken then i else s.tokenStart,
         if opens then Some(i) else if closes then None else s.quoteStart,
         if opens then s.lex.current else if closes then "" else s.prefixBeforeQuote)
  }

  function ScanFrom(s: Scan, rest: string, i: nat): Scan
    decreases |rest|
  {
    if rest == "" then s else ScanFrom(ScanRune(s, rest[0], i), rest[1..], i + 1)
  }

  function CursorOf(s: Scan, content: string): Cursor
    requires s.lex.inToken ==> s.tokenStart <= |content|
    requires s.quoteStart.Some? ==> s.quoteStart.value < |content|
  {
    var tokens := s.lex.args;
    var quote := s.lex.quote;
    if !s.lex.inToken then
      Cursor(if tokens == [] then "" else tokens[0], |tokens|, tokens == [], "", Bare, content, "")
    else if tokens == [] then
      Cursor(Text(s.lex), 0, true, Text(s.lex), quote, content[..s.tokenStart], "")
    else if quote != Bare && s.quoteStart.Some? then
      Cursor(tokens[0], |tokens|, false, Text(s.lex), quote, content[..s.quoteStart.value + 1], s.prefixBeforeQuote)
    else
      Cursor(tokens[0], |tokens|, false, Text(s.lex), quote, content[..s.tokenStart], "")
  }

  /** Where words and quotes begin: before a word the automaton is between words, after an open quote inside it. */
  predicate ScanOk(s: Scan, seen: string) {
    && s.lex == FeedAll(START, seen)
    && (s.lex.quote != Bare || s.lex.escaped ==> s.lex.inToken)
    && (!s.lex.inToken ==> s.lex.current == "")
    && (s.lex.inToken ==>
          s.tokenStart < |seen| && FeedAll(START, seen[..s.tokenStart]) == Lex(s.lex.args, "", false, Bare, false))
    && (s.quoteStart.Some? <==> s.lex.quote != Bare)
    && (s.quoteStart.Some? ==>
          && s.quoteStart.value < |seen|
          && FeedAll(START, seen[..s.quoteStart.value + 1]) ==
             Lex(s.lex.args, s.prefixBeforeQuote, true, s.lex.quote, false))
  }

  lemma ScanRuneOk(s: Scan, seen: string, r: char)
    requires ScanOk(s, seen)
    ensures ScanOk(ScanRune(s, r, |seen|), seen + [r])
  {
    FeedAllAppend(START, seen, [r]);
    var more := seen + [r];
    assert more[..|seen|] == seen && more[..|seen| + 1] == more;
    if s.lex.inToken { assert more[..s.tokenStart] == seen[..s.tokenStart]; }
    if s.quoteStart.Some? { assert more[..s.quoteStart.value + 1] == seen[..s.quoteStart.value + 1]; }
  }

  lemma {:induction false} ScanFromOk(s: Scan, seen: string, rest: string)
    requires ScanOk(s, seen)
    ensures ScanOk(ScanFrom(s, rest, |seen|), seen + rest)
    decreases |rest|
  {
    if rest == "" {
      assert seen + rest == seen;
    } else {
      ScanRuneOk(s, seen, rest[0]);
      ScanFromOk(ScanRune(s, rest[0], |seen|), seen + [rest[0]], rest[1..]);
      assert seen + [rest[0]] + rest[1..] == seen + rest;
    }
  }

  function CompletionScan(content: string): (s: Scan)
    ensures ScanOk(s, content)
  {
    ScanFromOk(SCAN_START, "", content);
    assert "" + content == content;
    ScanFrom(SCAN_START, content, 0)
  }

  function CompletionCursor(content: string): Cursor {
    CursorOf(CompletionScan(content), content)
  }

  /** parseCompletionCursor. */
  method ParseCompletionCursor(content: string) returns (cursor: Cursor)
    ensures cursor == CompletionCursor(content)
  {
    var tokens: seq<string>, current, inToken, inQuote, escaped := [], "", false, Bare, false;
    var tokenStart, prefixBeforeQuote := 0, "";
    var quoteStart: Option<nat> := None;
    var i := 0;
    while i < |content|
      invariant 0 <= i <= |content|
      invariant ScanFrom(
        Scan(Lex(tokens, current, inToken, inQuote, escaped), tokenStart, quoteStart, prefixBeforeQuote),
                         content[i..], i) == CompletionScan(content)
      invariant inQuote != Bare || escaped ==> inToken
    {
      var r := content[i];
      ghost var rest := content[i..];
      assert rest[0] == r && rest[1..] == content[i + 1..];
      if escaped {
        escaped := false;
        inToken := true;
        current := current + EscapedText(r, inQuote);
      } else if inQuote == Single {
        inToken := true;
        if r == '\'' {
          inQuote := Bare;
          quoteStart := None;
          prefixBeforeQuote := "";
        } else {
          current := current + [r];
        }
      } else if inQuote == Double {
        inToken := true;
        if r == '\\' {
          escaped := true;
        } else if r == '"' {
          inQuote := Bare;
          quoteStart := None;
          prefixBeforeQuote := "";
        } else {
          current := current + [r];
        }
      } else if r == '\\' {
        escaped := true;
        if !inToken {
          inToken := true;
          tokenStart := i;
        }
      } else if r == '\'' || r == '"' {
        inQuote := if r == '\'' then Single else Double;
        quoteStart := Some(i);
        prefixBeforeQuote := current;
        if !inToken {
          inToken := true;
          tokenStart := i;
        }
      } else if IsSpace(r) {
        if inToken {
          tokens := tokens + [current];
          current := "";
          inToken := false;
        }
      } else {
        if !inToken {
          inToken := true;
          tokenStart := i;
        }
        current := current + [r];
      }
      i := i + 1;
    }
    ghost var s := Scan(Lex(tokens, current, inToken, inQuote, escaped), tokenStart, quoteStart, prefixBeforeQuote);
    assert content[i..] == "" && s == CompletionScan(content);
    if escaped {
      current := current + "\\";
    }
    if !inToken {
      if |tokens| == 0 {
        return Cursor("", 0, true, "", Bare, content, "");
      }
      return Cursor(tokens[0], |tokens|, false, "", Bare, content, "");
    }
    if |tokens| == 0 {
      return Cursor(current, 0, true, current, inQuote, content[..tokenStart], "");
    }
    var head;
    if inQuote != Bare && quoteStart.Some? {
      head := content[..quoteStart.value + 1];
    } else {
      head := content[..tokenStart];
      prefixBeforeQuote := "";
    }
    return Cursor(tokens[0], |tokens|, false, current, inQuote, head, prefixBeforeQuote);
  }
}
