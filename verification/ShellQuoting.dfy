/**
 Quoting for the shell that parses an exec payload, and payloads that one shell hands on to another. Strings are
 sequences of bytes, written as characters.
 */
module ShellQuoting {
  import opened Prelude

  /** The shell that reads a text. */
  datatype Dialect = Posix | Fish | Csh

  // ---------- Quoting ----------

  function Escaped(d: Dialect, c: char): string {
    match d
    case Posix => if c == '\'' then "'\\''" else [c]
    case Fish => if c == '\\' || c == '\'' then ['\\', c] else [c]
    case Csh => if c == '\'' then "'\\''" else if c == '!' || c == '\n' then ['\\', c] else [c]
  }

  function Body(d: Dialect, s: string): string {
    if s == "" then "" else Body(d, s[..|s| - 1]) + Escaped(d, s[|s| - 1])
  }

  /** shellQuote, fishQuote and cshQuote. */
  function Quoted(d: Dialect, s: string): string {
    "'" + Body(d, s) + "'"
  }

  lemma BodyOneMore(d: Dialect, s: string, i: nat)
    requires i < |s|
    ensures Body(d, s[..i + 1]) == Body(d, s[..i]) + Escaped(d, s[i])
  {
    assert s[..i + 1][..i] == s[..i];
  }

  method CshQuote(value: string) returns (b: string)
    ensures b == Quoted(Csh, value)
  {
    b := "'";
    var i := 0;
    while i < |value|
      invariant 0 <= i <= |value| && b == "'" + Body(Csh, value[..i])
    {
      ghost var before := b;
      match value[i] {
        case '\'' => b := b + "'\\''";
        case '!' => b := b + "\\!";
        case '\n' => b := b + "\\\n";
        case c => b := b + [c];
      }
      assert b == before + Escaped(Csh, value[i]);
      BodyOneMore(Csh, value, i);
      Assoc("'", Body(Csh, value[..i]), Escaped(Csh, value[i]));
      i := i + 1;
    }
    assert value[..i] == value;
    b := b + "'";
  }

  // ---------- How the shells read ----------

  /** The words read so far, the one being read, and whether a quotation or an escape is open. */
  datatype Lex = Lex(words: seq<string>, word: Option<string>, quoted: bool, escaped: bool, bad: bool)

  const START := Lex([], None, false, false, false)

  function Added(x: Lex, c: char): Lex {
    x.(word := Some((if x.word.Some? then x.word.value else "") + [c]), escaped := false)
  }

  function InQuotation(d: Dialect, x: Lex, c: char): Lex {
    if c == '\'' then x.(quoted := false, escaped := false)
    else if c == '\\' && d != Posix then x.(escaped := true)
    else Added(x, c)
  }

  /** Unquoted characters without a meaning of their own in any of the shells. */
  predicate Plain(c: char) {
    'a' <= c <= 'z' || c == '-'
  }

  /** Unquoted text with other special characters has no reading here. */
  function Read(d: Dialect, x: Lex, c: char): Lex {
    if x.quoted then
      if !x.escaped then InQuotation(d, x, c)
      else if (d == Fish && (c == '\\' || c == '\'')) || (d == Csh && (c == '!' || c == '\n')) then Added(x, c)
      else InQuotation(d, Added(x, '\\'), c)
    else if x.escaped then if c == '\'' && d != Fish then Added(x, c) else x.(bad := true)
    else if c == ' ' then if x.word.Some? then x.(words := x.words + [x.word.value], word := None) else x
    else if c == '\'' then x.(quoted := true, word := Some(if x.word.Some? then x.word.value else ""))
    else if c == '\\' then x.(escaped := true)
    else if Plain(c) then Added(x, c)
    else x.(bad := true)
  }

  /** The state after the first `n` characters. */
  function FeedTo(d: Dialect, x: Lex, s: string, n: nat): Lex
    requires n <= |s|
  {
    if n == 0 then x else Read(d, FeedTo(d, x, s, n - 1), s[n - 1])
  }

  function Feed(d: Dialect, x: Lex, s: string): Lex {
    FeedTo(d, x, s, |s|)
  }

  /** The words of a complete text. */
  function Words(d: Dialect, s: string): Option<seq<string>> {
    var x := Feed(d, START, s);
    if x.bad || x.quoted || x.escaped then None
    else Some(x.words + if x.word.Some? then [x.word.value] else [])
  }

  lemma FeedOne(d: Dialect, x: Lex, c: char)
    ensures Feed(d, x, [c]) == Read(d, x, c)
  {
    assert FeedTo(d, x, [c], 0) == x;
  }

  lemma {:induction false} FeedPrefix(d: Dialect, x: Lex, a: string, b: string, n: nat)
    requires n <= |a|
    ensures FeedTo(d, x, a + b, n) == FeedTo(d, x, a, n)
    decreases n
  {
    if n > 0 {
      FeedPrefix(d, x, a, b, n - 1);
    }
  }

  lemma FeedLast(d: Dialect, x: Lex, a: string, c: char)
    ensures Feed(d, x, a + [c]) == Read(d, Feed(d, x, a), c)
  {
    FeedPrefix(d, x, a, [c], |a|);
  }

  lemma {:induction false} FeedAppend(d: Dialect, x: Lex, a: string, b: string)
    ensures Feed(d, x, a + b) == Feed(d, Feed(d, x, a), b)
    decreases |b|
  {
    if b == "" {
      assert a + b == a;
    } else {
      var init, c := b[..|b| - 1], b[|b| - 1];
      assert b == init + [c];
      FeedAppend(d, x, a, init);
      FeedLast(d, Feed(d, x, a), init, c);
      FeedLast(d, x, a + init, c);
      Assoc(a, init, [c]);
    }
  }

  // ---------- A quoted string is one word ----------

  /** Inside a quotation that so far stands for `text`; a C shell may still hold back a backslash. */
  predicate Inside(d: Dialect, x: Lex, words: seq<string>, text: string) {
    && x.quoted && !x.bad && x.words == words && x.word.Some? && (x.escaped ==> d == Csh)
    && text == x.word.value + if x.escaped then "\\" else ""
  }

  lemma EscapedIsRead(d: Dialect, x: Lex, words: seq<string>, text: string, c: char)
    requires Inside(d, x, words, text)
    ensures Inside(d, Feed(d, x, Escaped(d, c)), words, text + [c])
  {
    var e := Escaped(d, c);
    if |e| == 1 {
      FeedOne(d, x, c);
    } else if |e| == 2 {
      assert e == [e[0]] + [e[1]];
      FeedAppend(d, x, [e[0]], [e[1]]);
      FeedOne(d, x, e[0]);
      FeedOne(d, Read(d, x, e[0]), e[1]);
    } else {
      ClosingIsRead(d, x, words, text);
    }
  }

  lemma CloseIsRead(d: Dialect, x: Lex, words: seq<string>, text: string)
    requires Inside(d, x, words, text)
    ensures Read(d, x, '\'') == Lex(words, Some(text), false, false, false)
  {
    assert x.word.value + "" == x.word.value;
  }

  lemma ClosingIsRead(d: Dialect, x: Lex, words: seq<string>, text: string)
    requires Inside(d, x, words, text) && d != Fish
    ensures Inside(d, Feed(d, x, "'\\''"), words, text + "'")
  {
    var x1 := Read(d, x, '\'');
    var x2 := Read(d, x1, '\\');
    var x3 := Read(d, x2, '\'');
    CloseIsRead(d, x, words, text);
    assert x3 == Lex(words, Some(text + "'"), false, false, false);
    FeedOne(d, x, '\'');
    FeedAppend(d, x, "'", "\\");
    FeedOne(d, x1, '\\');
    FeedAppend(d, x, "'" + "\\", "'");
    FeedOne(d, x2, '\'');
    FeedAppend(d, x, "'" + "\\" + "'", "'");
    FeedOne(d, x3, '\'');
    assert "'" + "\\" + "'" + "'" == "'\\''";
  }

  lemma {:induction false} BodyIsRead(d: Dialect, x: Lex, words: seq<string>, text: string, s: string)
    requires Inside(d, x, words, text)
    ensures Inside(d, Feed(d, x, Body(d, s)), words, text + s)
    decreases |s|
  {
    if s == "" {
      assert text + s == text;
    } else {
      var init, c := s[..|s| - 1], s[|s| - 1];
      BodyIsRead(d, x, words, text, init);
      FeedAppend(d, x, Body(d, init), Escaped(d, c));
      EscapedIsRead(d, Feed(d, x, Body(d, init)), words, text + init, c);
      assert text + init + [c] == text + s;
    }
  }

  predicate Between(x: Lex, words: seq<string>) {
    x == Lex(words, None, false, false, false)
  }

  /** Wherever a word may begin, a quoted string is read as one word, equal to the string. */
  lemma QuotedIsRead(d: Dialect, x: Lex, words: seq<string>, s: string)
    requires Between(x, words)
    ensures Feed(d, x, Quoted(d, s)) == Lex(words, Some(s), false, false, false)
  {
    var open' := Read(d, x, '\'');
    FeedOne(d, x, '\'');
    assert "" + s == s;
    BodyIsRead(d, open', words, "", s);
    FeedAppend(d, x, "'", Body(d, s));
    FeedAppend(d, x, "'" + Body(d, s), "'");
    FeedOne(d, Feed(d, open', Body(d, s)), '\'');
    CloseIsRead(d, Feed(d, open', Body(d, s)), words, s);
  }

  lemma LastWord(d: Dialect, s: string, words: seq<string>, w: string)
    requires Feed(d, START, s) == Lex(words, Some(w), false, false, false)
    ensures Words(d, s) == Some(words + [w])
  {
  }

  /** Unquoting undoes quoting, in every dialect and for every string. */
  lemma QuotedIsOneWord(d: Dialect, s: string)
    ensures Words(d, Quoted(d, s)) == Some([s])
  {
    QuotedIsRead(d, START, [], s);
    LastWord(d, Quoted(d, s), [], s);
    assert [] + [s] == [s];
  }

  /** Different strings never have the same quotation. */
  lemma QuotedIsInjective(d: Dialect, s: string, t: string)
    requires Quoted(d, s) == Quoted(d, t)
    ensures s == t
  {
    QuotedIsOneWord(d, s);
    QuotedIsOneWord(d, t);
    assert [s][0] == [t][0];
  }

  // ---------- Lists of words ----------

  /** The first `n` words with a space between each two. */
  function JoinedTo(words: seq<string>, n: nat): string
    requires n <= |words|
  {
    if n == 0 then "" else if n == 1 then words[0] else JoinedTo(words, n - 1) + " " + words[n - 1]
  }

  function Joined(words: seq<string>): string {
    JoinedTo(words, |words|)
  }

  /** What stands before the word with index `n`. */
  function BeforeWord(words: seq<string>, n: nat): string
    requires n <= |words|
  {
    if n == 0 then "" else JoinedTo(words, n) + " "
  }

  lemma JoinedNext(words: seq<string>, n: nat)
    requires n < |words|
    ensures JoinedTo(words, n + 1) == BeforeWord(words, n) + words[n]
  {
    assert "" + words[n] == words[n];
  }

  function AllQuoted(d: Dialect, args: seq<string>): seq<string> {
    seq(|args|, i requires 0 <= i < |args| => Quoted(d, args[i]))
  }

  predicate IsPlainWord(w: string) {
    w != "" && forall i :: 0 <= i < |w| ==> Plain(w[i])
  }

  lemma {:induction false} PlainIsRead(d: Dialect, x: Lex, words: seq<string>, w: string)
    requires Between(x, words) && forall i :: 0 <= i < |w| ==> Plain(w[i])
    ensures Feed(d, x, w) == Lex(words, if w == "" then None else Some(w), false, false, false)
    decreases |w|
  {
    if w != "" {
      var init, c := w[..|w| - 1], w[|w| - 1];
      PlainIsRead(d, x, words, init);
      FeedLast(d, x, init, c);
      assert init + [c] == w;
    }
  }

  lemma SpaceIsRead(d: Dialect, x: Lex, words: seq<string>, w: string, done: string)
    requires Feed(d, x, done) == Lex(words, Some(w), false, false, false)
    ensures Between(Feed(d, x, done + " "), words + [w])
  {
    FeedLast(d, x, done, ' ');
  }

  lemma BeforeNext(words: seq<string>, n: nat)
    requires n < |words|
    ensures BeforeWord(words, n + 1) == BeforeWord(words, n) + words[n] + " "
  {
    JoinedNext(words, n);
  }

  lemma PlainWordIsRead(d: Dialect, before: string, words: seq<string>, w: string)
    requires Between(Feed(d, START, before), words) && IsPlainWord(w)
    ensures Feed(d, START, before + w) == Lex(words, Some(w), false, false, false)
    ensures Between(Feed(d, START, before + w + " "), words + [w])
  {
    PlainIsRead(d, Feed(d, START, before), words, w);
    FeedAppend(d, START, before, w);
    SpaceIsRead(d, START, words, w, before + w);
  }

  lemma OneMoreWord(d: Dialect, before: string, ws: seq<string>, n: nat, next: string)
    requires n < |ws| && Between(Feed(d, START, before), ws[..n]) && IsPlainWord(ws[n])
    requires next == before + ws[n] + " "
    ensures Between(Feed(d, START, next), ws[..n + 1])
  {
    PlainWordIsRead(d, before, ws[..n], ws[n]);
    assert ws[..n] + [ws[n]] == ws[..n + 1];
  }

  predicate AllPlain(ws: seq<string>) {
    forall i :: 0 <= i < |ws| ==> IsPlainWord(ws[i])
  }

  /** Plain words, each followed by a space. */
  lemma {:induction false} PrefixIsRead(d: Dialect, ws: seq<string>, n: nat)
    requires AllPlain(ws) && n <= |ws|
    ensures Between(Feed(d, START, BeforeWord(ws, n)), ws[..n])
    decreases n
  {
    if n > 0 {
      PrefixIsRead(d, ws, n - 1);
      BeforeNext(ws, n - 1);
      OneMoreWord(d, BeforeWord(ws, n - 1), ws, n - 1, BeforeWord(ws, n));
    }
  }

  /** A command of plain words is read as these words. */
  lemma PlainCommandIsRead(d: Dialect, ws: seq<string>)
    requires AllPlain(ws) && ws != []
    ensures Words(d, Joined(ws)) == Some(ws)
  {
    var n := |ws| - 1;
    PrefixIsRead(d, ws, n);
    JoinedNext(ws, n);
    PlainWordIsRead(d, BeforeWord(ws, n), ws[..n], ws[n]);
    LastWord(d, Joined(ws), ws[..n], ws[n]);
    assert ws[..n] + [ws[n]] == ws;
  }

  lemma InitAndLast(ws: seq<string>, args: seq<string>)
    requires args != []
    ensures ws + args[..|args| - 1] + [args[|args| - 1]] == ws + args
  {
  }

  /** One more quoted argument after what has been read. */
  lemma ArgumentIsRead(d: Dialect, x: Lex, done: string, words: seq<string>, last: string, arg: string)
    requires Feed(d, x, done) == Lex(words, Some(last), false, false, false)
    ensures Feed(d, x, done + " " + Quoted(d, arg)) == Lex(words + [last], Some(arg), false, false, false)
  {
    SpaceIsRead(d, x, words, last, done);
    QuotedIsRead(d, Feed(d, x, done + " "), words + [last], arg);
    FeedAppend(d, x, done + " ", Quoted(d, arg));
  }

  /** Quoted arguments joined by spaces are read as exactly the arguments. */
  lemma {:induction false} ArgumentsAreRead(d: Dialect, x: Lex, words: seq<string>, args: seq<string>, n: nat)
    requires Between(x, words) && 0 < n <= |args|
    ensures Feed(d, x, JoinedTo(AllQuoted(d, args), n)) ==
      Lex(words + args[..n - 1], Some(args[n - 1]), false, false, false)
    decreases n
  {
    if n == 1 {
      QuotedIsRead(d, x, words, args[0]);
      assert words + args[..0] == words;
    } else {
      ArgumentsAreRead(d, x, words, args, n - 1);
      ArgumentIsRead(d, x, JoinedTo(AllQuoted(d, args), n - 1), words + args[..n - 2], args[n - 2], args[n - 1]);
      assert words + args[..n - 2] + [args[n - 2]] == words + args[..n - 1];
    }
  }

  lemma TailIsRead(d: Dialect, before: string, tail: string, words: seq<string>, w: string)
    requires Feed(d, Feed(d, START, before), tail) == Lex(words, Some(w), false, false, false)
    ensures Words(d, before + tail) == Some(words + [w])
  {
    FeedAppend(d, START, before, tail);
    LastWord(d, before + tail, words, w);
  }

  lemma ArgumentsAfter(d: Dialect, before: string, ws: seq<string>, args: seq<string>)
    requires Between(Feed(d, START, before), ws) && args != []
    ensures Words(d, before + Joined(AllQuoted(d, args))) == Some(ws + args)
  {
    ArgumentsAreRead(d, Feed(d, START, before), ws, args, |args|);
    TailIsRead(d, before, Joined(AllQuoted(d, args)), ws + args[..|args| - 1], args[|args| - 1]);
    InitAndLast(ws, args);
  }

  /** A plain command with quoted arguments is read as its words and then the arguments. */
  lemma CommandIsRead(d: Dialect, ws: seq<string>, args: seq<string>)
    requires AllPlain(ws) && ws != [] && args != []
    ensures Words(d, BeforeWord(ws, |ws|) + Joined(AllQuoted(d, args))) == Some(ws + args)
  {
    PrefixIsRead(d, ws, |ws|);
    assert ws[..|ws|] == ws;
    ArgumentsAfter(d, BeforeWord(ws, |ws|), ws, args);
  }

  // ---------- Payloads ----------

  datatype Interpreter = Default | Bash | Sh | Zsh | FishShell | CshShell | Tcsh | Unsupported

  const MAX_COMMAND_BYTES := 65536

  function Name(i: Interpreter): string {
    match i
    case Sh => "sh" case Zsh => "zsh" case FishShell => "fish" case CshShell => "csh" case Tcsh => "tcsh"
    case _ => "bash"
  }

  function LoginWords(i: Interpreter, login: bool): seq<string> {
    if login then [Name(i), "-l"] else [Name(i)]
  }

  /** unixCommandPayload. */
  function UnixCommandPayload(i: Interpreter, command: string, login: bool, d: Dialect): string {
    Name(i) + (if login then " -l" else "") + " -c " + Quoted(d, command)
  }

  /** The payload of an interpreter that runs a script from its standard input, without arguments. */
  function BarePayload(i: Interpreter, login: bool): string {
    match i
    case Sh => "sh -s"
    case Zsh => if login then "zsh -l -s" else "zsh -s"
    case FishShell => if login then "fish -l" else "fish"
    case CshShell => "csh -s"
    case Tcsh => "tcsh -s"
    case _ => if login then "bash -l -s" else "bash -s"
  }

  /** What precedes the quoted arguments of a script. */
  function ScriptPrefix(i: Interpreter, login: bool): string {
    match i
    case Sh => "sh -s -- "
    case Zsh => if login then "zsh -l -s -- " else "zsh -s -- "
    case CshShell => "csh -s -b "
    case Tcsh => "tcsh -s -b "
    case _ => if login then "bash -l -s -- " else "bash -s -- "
  }

  /** The script that a fish shell is told to run, with the arguments quoted for that shell. */
  function FishInner(args: seq<string>): string {
    "source - " + Joined(AllQuoted(Fish, args))
  }

  predicate HasNul(args: seq<string>) {
    exists k :: 0 <= k < |args| && '\0' in args[k]
  }

  function Payload(i: Interpreter, login: bool, d: Dialect, args: seq<string>): string {
    if args == [] then BarePayload(i, login)
    else if i == FishShell then UnixCommandPayload(FishShell, FishInner(args), login, d)
    else ScriptPrefix(i, login) + Joined(AllQuoted(d, args))
  }

  /** formatScriptPayload. */
  method FormatScriptPayload(i: Interpreter, login: bool, d: Dialect, args: seq<string>) returns (r: Result<string>)
    ensures r.Ok? <==> !HasNul(args) && i != Unsupported && |Payload(i, login, d, args)| <= MAX_COMMAND_BYTES
    ensures r.Ok? ==> r.value == Payload(i, login, d, args)
  {
    var k := 0;
    while k < |args|
      invariant 0 <= k <= |args| && forall h :: 0 <= h < k ==> '\0' !in args[h]
    {
      if '\0' in args[k] {
        return Failed;
      }
      k := k + 1;
    }
    var payload;
    if i == Unsupported {
      return Failed;
    }
    if |args| == 0 {
      payload := BarePayload(i, login);
    } else if i == FishShell {
      var quoted := QuoteAll(Fish, args);
      payload := UnixCommandPayload(FishShell, "source - " + Joined(quoted), login, d);
    } else {
      var quoted := QuoteAll(d, args);
      payload := ScriptPrefix(i, login) + Joined(quoted);
    }
    if |payload| > MAX_COMMAND_BYTES {
      return Failed;
    }
    return Ok(payload);
  }

  method QuoteAll(d: Dialect, args: seq<string>) returns (quoted: seq<string>)
    ensures quoted == AllQuoted(d, args)
  {
    quoted := [];
    for k := 0 to |args|
      invariant quoted == AllQuoted(d, args[..k])
    {
      assert AllQuoted(d, args[..k + 1]) == AllQuoted(d, args[..k]) + [Quoted(d, args[k])];
      quoted := quoted + [Quoted(d, args[k])];
    }
    assert args[..|args|] == args;
  }

  /** The words of an interpreter's command line before the arguments. */
  function PrefixWords(i: Interpreter, login: bool): seq<string> {
    match i
    case Sh => ["sh", "-s", "--"]
    case Zsh => LoginWords(Zsh, login) + ["-s", "--"]
    case CshShell => ["csh", "-s", "-b"]
    case Tcsh => ["tcsh", "-s", "-b"]
    case _ => LoginWords(Bash, login) + ["-s", "--"]
  }

  function BareWords(i: Interpreter, login: bool): seq<string> {
    match i
    case Sh => ["sh", "-s"]
    case Zsh => LoginWords(Zsh, login) + ["-s"]
    case FishShell => LoginWords(FishShell, login)
    case CshShell => ["csh", "-s"]
    case Tcsh => ["tcsh", "-s"]
    case _ => LoginWords(Bash, login) + ["-s"]
  }

  // ---------- What the shells make of the payloads ----------

  lemma Spelled1(a: string)
    ensures Joined([a]) == a && BeforeWord([a], 1) == a + " "
  {
  }

  lemma Spelled2(a: string, b: string)
    ensures Joined([a, b]) == a + " " + b && BeforeWord([a, b], 2) == a + " " + b + " "
  {
    assert JoinedTo([a, b], 1) == a;
  }

  lemma Spelled3(a: string, b: string, c: string)
    ensures Joined([a, b, c]) == a + " " + b + " " + c && BeforeWord([a, b, c], 3) == a + " " + b + " " + c + " "
  {
    assert JoinedTo([a, b, c], 1) == a;
    assert JoinedTo([a, b, c], 2) == a + " " + b;
  }

  lemma Spelled4(a: string, b: string, c: string, e: string)
    ensures BeforeWord([a, b, c, e], 4) == a + " " + b + " " + c + " " + e + " "
  {
    assert JoinedTo([a, b, c, e], 1) == a;
    assert JoinedTo([a, b, c, e], 2) == a + " " + b;
    assert JoinedTo([a, b, c, e], 3) == a + " " + b + " " + c;
  }

  lemma PrefixIsPlain(i: Interpreter, login: bool)
    ensures AllPlain(PrefixWords(i, login))
  {
  }

  lemma PrefixIsSpelled(i: Interpreter, login: bool)
    requires i != FishShell
    ensures ScriptPrefix(i, login) == BeforeWord(PrefixWords(i, login), |PrefixWords(i, login)|)
  {
    match i
    case Sh =>
      Spelled3("sh", "-s", "--");
      assert "sh" + " " + "-s" + " " + "--" + " " == "sh -s -- ";
    case CshShell =>
      Spelled3("csh", "-s", "-b");
      assert "csh" + " " + "-s" + " " + "-b" + " " == "csh -s -b ";
    case Tcsh =>
      Spelled3("tcsh", "-s", "-b");
      assert "tcsh" + " " + "-s" + " " + "-b" + " " == "tcsh -s -b ";
    case Zsh => if login { ZshLoginIsSpelled(); } else { ZshIsSpelled(); }
    case _ => if login { BashLoginIsSpelled(i); } else { BashIsSpelled(i); }
  }

  lemma ZshIsSpelled()
    ensures ScriptPrefix(Zsh, false) == BeforeWord(PrefixWords(Zsh, false), |PrefixWords(Zsh, false)|)
  {
    Spelled3("zsh", "-s", "--");
    assert PrefixWords(Zsh, false) == ["zsh", "-s", "--"];
    assert "zsh" + " " + "-s" + " " + "--" + " " == "zsh -s -- ";
  }

  lemma ZshLoginIsSpelled()
    ensures ScriptPrefix(Zsh, true) == BeforeWord(PrefixWords(Zsh, true), |PrefixWords(Zsh, true)|)
  {
    Spelled4("zsh", "-l", "-s", "--");
    assert PrefixWords(Zsh, true) == ["zsh", "-l", "-s", "--"];
    assert "zsh" + " " + "-l" + " " + "-s" + " " + "--" + " " == "zsh -l -s -- ";
  }

  lemma BashIsSpelled(i: Interpreter)
    requires i.Default? || i.Bash? || i.Unsupported?
    ensures ScriptPrefix(i, false) == BeforeWord(PrefixWords(i, false), |PrefixWords(i, false)|)
  {
    Spelled3("bash", "-s", "--");
    assert PrefixWords(i, false) == ["bash", "-s", "--"];
    assert "bash" + " " + "-s" + " " + "--" + " " == "bash -s -- ";
  }

  lemma BashLoginIsSpelled(i: Interpreter)
    requires i.Default? || i.Bash? || i.Unsupported?
    ensures ScriptPrefix(i, true) == BeforeWord(PrefixWords(i, true), |PrefixWords(i, true)|)
  {
    Spelled4("bash", "-l", "-s", "--");
    assert PrefixWords(i, true) == ["bash", "-l", "-s", "--"];
    assert "bash" + " " + "-l" + " " + "-s" + " " + "--" + " " == "bash -l -s -- ";
  }

  lemma BareIsPlain(i: Interpreter, login: bool)
    ensures AllPlain(BareWords(i, login))
  {
  }

  lemma BareIsSpelled(i: Interpreter, login: bool)
    ensures BarePayload(i, login) == Joined(BareWords(i, login))
  {
    match i
    case Sh => Spelled2("sh", "-s"); assert "sh" + " " + "-s" == "sh -s";
    case CshShell => Spelled2("csh", "-s"); assert "csh" + " " + "-s" == "csh -s";
    case Tcsh => Spelled2("tcsh", "-s"); assert "tcsh" + " " + "-s" == "tcsh -s";
    case FishShell =>
      Spelled1("fish");
      Spelled2("fish", "-l");
      assert "fish" + " " + "-l" == "fish -l";
    case _ => BareLoginIsSpelled(i, login);
  }

  lemma BareLoginIsSpelled(i: Interpreter, login: bool)
    requires i.Default? || i.Bash? || i.Zsh? || i.Unsupported?
    ensures BarePayload(i, login) == Joined(BareWords(i, login))
  {
    if login {
      Spelled3(Name(i), "-l", "-s");
      assert BareWords(i, login) == [Name(i), "-l", "-s"];
      assert "bash" + " " + "-l" + " " + "-s" == "bash -l -s" && "zsh" + " " + "-l" + " " + "-s" == "zsh -l -s";
    } else {
      Spelled2(Name(i), "-s");
      assert BareWords(i, login) == [Name(i), "-s"];
      assert "bash" + " " + "-s" == "bash -s" && "zsh" + " " + "-s" == "zsh -s";
    }
  }

  lemma CommandIsSpelled(i: Interpreter, login: bool)
    ensures var ws := LoginWords(i, login) + ["-c"];
      AllPlain(ws) && Name(i) + (if login then " -l" else "") + " -c " == BeforeWord(ws, |ws|)
  {
    var name := Name(i);
    if login {
      Spelled3(name, "-l", "-c");
      assert LoginWords(i, login) + ["-c"] == [name, "-l", "-c"];
      assert name + " -l" + " -c " == name + " " + "-l" + " " + "-c" + " ";
    } else {
      Spelled2(name, "-c");
      assert LoginWords(i, login) + ["-c"] == [name, "-c"];
      assert name + "" + " -c " == name + " " + "-c" + " ";
    }
  }

  /** Any command reaches the inner interpreter as the one argument after -c, whatever shell reads the payload. */
  lemma UnixCommandIsRead(i: Interpreter, command: string, login: bool, d: Dialect)
    ensures Words(d, UnixCommandPayload(i, command, login, d)) == Some(LoginWords(i, login) + ["-c", command])
  {
    var ws := LoginWords(i, login) + ["-c"];
    CommandIsSpelled(i, login);
    CommandIsRead(d, ws, [command]);
    Spelled1(Quoted(d, command));
    assert AllQuoted(d, [command]) == [Quoted(d, command)];
    assert ws + [command] == LoginWords(i, login) + ["-c", command];
  }

  /** Any script arguments are read by the outer shell as exactly these arguments. */
  lemma ScriptIsRead(i: Interpreter, login: bool, d: Dialect, args: seq<string>)
    requires i != FishShell || args == []
    ensures Words(d, Payload(i, login, d, args)) ==
      Some(if args == [] then BareWords(i, login) else PrefixWords(i, login) + args)
  {
    if args == [] {
      BareIsPlain(i, login);
      BareIsSpelled(i, login);
      PlainCommandIsRead(d, BareWords(i, login));
    } else {
      PrefixIsPlain(i, login);
      PrefixIsSpelled(i, login);
      CommandIsRead(d, PrefixWords(i, login), args);
    }
  }

  lemma SourceDash()
    ensures BeforeWord(["source", "-"], 2) == "source - "
  {
    Spelled2("source", "-");
    assert "source" + " " + "-" + " " == "source - ";
  }

  /** A fish script is read twice: the outer shell hands one word to fish, which reads `source - ` and the arguments. */
  lemma FishScriptIsReadTwice(login: bool, d: Dialect, args: seq<string>)
    requires args != []
    ensures Words(d, Payload(FishShell, login, d, args)) == Some(LoginWords(FishShell, login) + ["-c", FishInner(args)])
    ensures Words(Fish, FishInner(args)) == Some(["source", "-"] + args)
  {
    UnixCommandIsRead(FishShell, FishInner(args), login, d);
    SourceDash();
    CommandIsRead(Fish, ["source", "-"], args);
  }

  // ---------- How much quoting adds ----------

  function Factor(d: Dialect): nat {
    if d == Fish then 2 else 4
  }

  lemma {:induction false} BodyIsBounded(d: Dialect, s: string)
    ensures |s| <= |Body(d, s)| <= Factor(d) * |s|
    decreases |s|
  {
    if s != "" {
      BodyIsBounded(d, s[..|s| - 1]);
    }
  }

  function TotalLength(args: seq<string>, n: nat): nat
    requires n <= |args|
  {
    if n == 0 then 0 else TotalLength(args, n - 1) + |args[n - 1]|
  }

  lemma {:induction false} ArgumentsAreBounded(d: Dialect, args: seq<string>, n: nat)
    requires n <= |args|
    ensures |JoinedTo(AllQuoted(d, args), n)| <= Factor(d) * TotalLength(args, n) + 3 * n
    decreases n
  {
    if n > 0 {
      ArgumentsAreBounded(d, args, n - 1);
      OneMoreIsBounded(d, args, n);
      Distribute(Factor(d), TotalLength(args, n - 1), |args[n - 1]|);
    }
  }

  lemma OneMoreIsBounded(d: Dialect, args: seq<string>, n: nat)
    requires 0 < n <= |args|
    ensures |JoinedTo(AllQuoted(d, args), n)| <=
            |JoinedTo(AllQuoted(d, args), n - 1)| + Factor(d) * |args[n - 1]| + 3
  {
    BodyIsBounded(d, args[n - 1]);
    assert AllQuoted(d, args)[n - 1] == Quoted(d, args[n - 1]);
  }

  lemma FactorGrows(d: Dialect, a: nat, b: nat)
    requires a <= b
    ensures Factor(d) * a <= Factor(d) * b
  {
  }

  lemma FishInnerIsBounded(args: seq<string>)
    ensures |FishInner(args)| <= 2 * TotalLength(args, |args|) + 3 * |args| + 9
  {
    ArgumentsAreBounded(Fish, args, |args|);
  }

  lemma FishCommandLength(command: string, login: bool, d: Dialect)
    ensures |UnixCommandPayload(FishShell, command, login, d)| <= 13 + |Body(d, command)|
  {
  }

  /** The payload of a fish script, quoted twice, is at most eight times as long as its arguments, and a constant. */
  lemma FishPayloadIsBounded(login: bool, d: Dialect, args: seq<string>)
    requires args != []
    ensures |Payload(FishShell, login, d, args)| <= Factor(d) * (2 * TotalLength(args, |args|) + 3 * |args| + 9) + 13
  {
    var inner := FishInner(args);
    FishInnerIsBounded(args);
    BodyIsBounded(d, inner);
    FactorGrows(d, |inner|, 2 * TotalLength(args, |args|) + 3 * |args| + 9);
    FishCommandLength(inner, login, d);
  }

  lemma ScriptPayloadIsBounded(i: Interpreter, login: bool, d: Dialect, args: seq<string>)
    requires args != [] && i != FishShell
    ensures |Payload(i, login, d, args)| <= Factor(d) * TotalLength(args, |args|) + 3 * |args| + 14
  {
    ArgumentsAreBounded(d, args, |args|);
  }
}
