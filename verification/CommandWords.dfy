/**
 What a command line means, independently of how it is read: words of quoted, escaped and plain parts between spaces.
 Splitting succeeds exactly on the lines that are written in this way, and gives the values of their words.
 */
module CommandWords {
  import opened Prelude
  import opened CommandLine

  // ---------- The notation ----------

  /** Inside double quotes: a rune, a quote or backslash behind a backslash, or a backslash kept before another rune. */
  datatype Mark = Sign(c: char) | Spared(c: char) | Slashed(c: char)

  /** `Folder` is a double-quoted part that ends in a backslash, and `Dangling` a backslash that ends the line. */
  datatype Part =
    | Letter(c: char)
    | Escaped(c: char)
    | Literal(c: char)
    | InSingle(text: string)
    | InDouble(marks: seq<Mark>)
    | Folder(marks: seq<Mark>)
    | Dangling

  datatype Word = Word(gap: string, parts: seq<Part>)

  datatype Line = Line(words: seq<Word>, tail: string)

  function MarkText(m: Mark): string {
    match m case Sign(c) => [c] case Spared(c) => ['\\', c] case Slashed(c) => ['\\', c]
  }

  function MarkValue(m: Mark): string {
    match m case Sign(c) => [c] case Spared(c) => [c] case Slashed(c) => ['\\', c]
  }

  function MarksText(marks: seq<Mark>): string {
    if marks == [] then "" else MarkText(marks[0]) + MarksText(marks[1..])
  }

  function MarksValue(marks: seq<Mark>): string {
    if marks == [] then "" else MarkValue(marks[0]) + MarksValue(marks[1..])
  }

  function PartText(p: Part): string {
    match p
    case Letter(c) => [c]
    case Escaped(c) => ['\\', c]
    case Literal(c) => ['\\', c]
    case InSingle(text) => "'" + text + "'"
    case InDouble(marks) => "\"" + MarksText(marks) + "\""
    case Folder(marks) => "\"" + MarksText(marks) + "\\\""
    case Dangling => "\\"
  }

  function PartValue(p: Part): string {
    match p
    case Letter(c) => [c]
    case Escaped(c) => [c]
    case Literal(c) => ['\\', c]
    case InSingle(text) => text
    case InDouble(marks) => MarksValue(marks)
    case Folder(marks) => MarksValue(marks) + "\\"
    case Dangling => "\\"
  }

  function PartsText(parts: seq<Part>): string {
    if parts == [] then "" else PartText(parts[0]) + PartsText(parts[1..])
  }

  function PartsValue(parts: seq<Part>): string {
    if parts == [] then "" else PartValue(parts[0]) + PartsValue(parts[1..])
  }

  function WordsText(words: seq<Word>): string {
    if words == [] then "" else words[0].gap + PartsText(words[0].parts) + WordsText(words[1..])
  }

  function LineText(line: Line): string {
    WordsText(line.words) + line.tail
  }

  function Values(words: seq<Word>): seq<string> {
    if words == [] then [] else [PartsValue(words[0].parts)] + Values(words[1..])
  }

  predicate Spaces(s: string) {
    forall i :: 0 <= i < |s| ==> IsSpace(s[i])
  }

  /** What stands for itself inside double quotes, and what follows a backslash there. */
  predicate MarkOk(m: Mark) {
    match m
    case Sign(c) => c != '"' && c != '\\'
    case Spared(c) => c == '"' || c == '\\'
    case Slashed(c) => c != '"' && c != '\\'
  }

  /** A quote behind a backslash is not followed by a space, where it would end the word. */
  predicate MarksOk(marks: seq<Mark>) {
    marks != [] ==>
      && MarkOk(marks[0]) && MarksOk(marks[1..])
      && (marks[0] == Spared('"') && |marks| > 1 && marks[1].Sign? ==> !IsSpace(marks[1].c))
  }

  predicate PartOk(p: Part) {
    match p
    case Letter(c) => !IsSpace(c) && c != '\\' && c != '\'' && c != '"'
    case Escaped(c) => c in {' ', '\t', '\n', '\r', '\'', '"', '\\'}
    case Literal(c) => c !in {' ', '\t', '\n', '\r', '\'', '"', '\\'}
    case InSingle(text) => '\'' !in text
    case InDouble(marks) => MarksOk(marks)
    case Folder(marks) => MarksOk(marks)
    case Dangling => true
  }

  /** The parts of a word, with `rest` behind it: a folder ends the word, and a dangling backslash the line. */
  predicate PartsOk(parts: seq<Part>, rest: string) {
    parts != [] ==>
      && PartOk(parts[0]) && PartsOk(parts[1..], rest)
      && (parts[0].Folder? ==> AtEnd(PartsText(parts[1..]) + rest))
      && (parts[0].Dangling? ==> PartsText(parts[1..]) + rest == "")
  }

  predicate AtEnd(rest: string) {
    rest == "" || IsSpace(rest[0])
  }

  predicate WordsOk(words: seq<Word>, tail: string) {
    words != [] ==>
      && Spaces(words[0].gap) && words[0].parts != [] && WordsOk(words[1..], tail)
      && AtEnd(WordsText(words[1..]) + tail)
      && PartsOk(words[0].parts, WordsText(words[1..]) + tail)
  }

  predicate LineOk(line: Line) {
    Spaces(line.tail) && WordsOk(line.words, line.tail)
  }

  // ---------- Reading parts ----------

  lemma SplitOne(s: Lex, c: char, rest: string)
    requires s.quote != Double || c != '\\'
    ensures SplitFrom(s, [c] + rest) == SplitFrom(Feed(s, c), rest)
  {
    assert ([c] + rest)[1..] == rest;
  }

  lemma SplitTwo(s: Lex, c: char, rest: string)
    requires !s.escaped && s.quote != Single && !ClosingBackslash(s, ['\\', c] + rest)
    ensures SplitFrom(s, ['\\', c] + rest) == SplitFrom(Feed(Feed(s, '\\'), c), rest)
  {
    var more := [c] + rest;
    assert (['\\', c] + rest)[1..] == more && more[1..] == rest;
  }

  lemma MarkReads(s: Lex, m: Mark, rest: string)
    requires s.quote == Double && !s.escaped && s.inToken && MarkOk(m)
    requires m == Spared('"') ==> rest != "" && !IsSpace(rest[0])
    ensures SplitFrom(s, MarkText(m) + rest) == SplitFrom(s.(current := s.current + MarkValue(m)), rest)
  {
    match m
    case Sign(c) => SplitOne(s, c, rest);
    case Spared(c) => SlashReads(s, c, rest);
    case Slashed(c) => SlashReads(s, c, rest);
  }

  lemma SlashReads(s: Lex, c: char, rest: string)
    requires s.quote == Double && !s.escaped && s.inToken && (c == '"' ==> rest != "" && !IsSpace(rest[0]))
    ensures SplitFrom(s, ['\\', c] + rest) ==
      SplitFrom(s.(current := s.current + if c == '"' || c == '\\' then [c] else ['\\', c]), rest)
  {
    var whole := ['\\', c] + rest;
    assert c == '"' ==> whole[2] == rest[0];
    SplitTwo(s, c, rest);
  }

  lemma {:induction false} MarksRead(s: Lex, marks: seq<Mark>, rest: string)
    requires s.quote == Double && !s.escaped && s.inToken && MarksOk(marks) && rest != "" && !IsSpace(rest[0])
    ensures SplitFrom(s, MarksText(marks) + rest) == SplitFrom(s.(current := s.current + MarksValue(marks)), rest)
    decreases |marks|
  {
    if marks == [] {
      assert MarksText(marks) + rest == rest && s.current + MarksValue(marks) == s.current;
    } else {
      var more := MarksText(marks[1..]) + rest;
      assert MarksText(marks) + rest == MarkText(marks[0]) + more;
      NextMark(marks, rest);
      MarkReads(s, marks[0], more);
      MarksRead(s.(current := s.current + MarkValue(marks[0])), marks[1..], rest);
      Assoc(s.current, MarkValue(marks[0]), MarksValue(marks[1..]));
    }
  }

  lemma NextMark(marks: seq<Mark>, rest: string)
    requires marks != [] && MarksOk(marks) && rest != "" && !IsSpace(rest[0])
    ensures var more := MarksText(marks[1..]) + rest;
      more != "" && (marks[0] == Spared('"') ==> !IsSpace(more[0]))
  {
    if |marks| > 1 {
      assert MarksText(marks[1..])[0] == MarkText(marks[1])[0];
    }
  }

  predicate Between(s: Lex) {
    s.quote == Bare && !s.escaped
  }

  function Grown(s: Lex, text: string): Lex {
    s.(current := s.current + text, inToken := true)
  }

  lemma PartReads(s: Lex, p: Part, rest: string)
    requires Between(s) && PartOk(p) && !p.Dangling? && (p.Folder? ==> AtEnd(rest))
    ensures SplitFrom(s, PartText(p) + rest) == SplitFrom(Grown(s, PartValue(p)), rest)
  {
    match p
    case Letter(c) => SplitOne(s, c, rest);
    case Escaped(c) => SplitTwo(s, c, rest);
    case Literal(c) => SplitTwo(s, c, rest);
    case InSingle(text) => SingleReads(s, text, rest);
    case InDouble(marks) => DoubleReads(s, marks, rest);
    case Folder(marks) => FolderReads(s, marks, rest);
  }

  lemma {:induction false} TextReads(s: Lex, text: string, rest: string)
    requires s.quote == Single && !s.escaped && s.inToken && '\'' !in text
    ensures SplitFrom(s, text + rest) == SplitFrom(s.(current := s.current + text), rest)
    decreases |text|
  {
    if text == "" {
      assert text + rest == rest && s.current + text == s.current;
    } else {
      assert text + rest == [text[0]] + (text[1..] + rest);
      SplitOne(s, text[0], text[1..] + rest);
      TextReads(Feed(s, text[0]), text[1..], rest);
      assert s.current + [text[0]] + text[1..] == s.current + text;
    }
  }

  lemma SingleReads(s: Lex, text: string, rest: string)
    requires Between(s) && '\'' !in text
    ensures SplitFrom(s, "'" + text + "'" + rest) == SplitFrom(Grown(s, text), rest)
  {
    assert "'" + text + "'" + rest == ['\''] + (text + (['\''] + rest));
    SplitOne(s, '\'', text + (['\''] + rest));
    var open := s.(inToken := true, quote := Single);
    TextReads(open, text, ['\''] + rest);
    SplitOne(open.(current := s.current + text), '\'', rest);
  }

  lemma DoubleReads(s: Lex, marks: seq<Mark>, rest: string)
    requires Between(s) && MarksOk(marks)
    ensures SplitFrom(s, "\"" + MarksText(marks) + "\"" + rest) == SplitFrom(Grown(s, MarksValue(marks)), rest)
  {
    assert "\"" + MarksText(marks) + "\"" + rest == ['"'] + (MarksText(marks) + (['"'] + rest));
    SplitOne(s, '"', MarksText(marks) + (['"'] + rest));
    var open := s.(inToken := true, quote := Double);
    MarksRead(open, marks, ['"'] + rest);
    SplitOne(open.(current := s.current + MarksValue(marks)), '"', rest);
  }

  lemma FolderReads(s: Lex, marks: seq<Mark>, rest: string)
    requires Between(s) && MarksOk(marks) && AtEnd(rest)
    ensures SplitFrom(s, "\"" + MarksText(marks) + "\\\"" + rest) == SplitFrom(Grown(s, MarksValue(marks) + "\\"), rest)
  {
    var end := ['\\', '"'] + rest;
    assert "\"" + MarksText(marks) + "\\\"" + rest == ['"'] + (MarksText(marks) + end);
    SplitOne(s, '"', MarksText(marks) + end);
    var open := s.(inToken := true, quote := Double);
    MarksRead(open, marks, end);
    var last := open.(current := s.current + MarksValue(marks));
    assert rest != "" ==> end[2] == rest[0];
    assert ClosingBackslash(last, end) && end[2..] == rest;
    Assoc(s.current, MarksValue(marks), "\\");
  }

  // ---------- Reading words and lines ----------

  /** What a word leaves behind: its value as the text being read, perhaps with a backslash still waiting. */
  predicate Holds(s: Lex, args: seq<string>, text: string) {
    s.args == args && s.inToken && s.quote == Bare && Text(s) == text
  }

  lemma {:induction false} PartsRead(s: Lex, parts: seq<Part>, rest: string) returns (end: Lex)
    requires Between(s) && PartsOk(parts, rest) && (parts == [] ==> s.inToken)
    ensures SplitFrom(s, PartsText(parts) + rest) == SplitFrom(end, rest)
    ensures Holds(end, s.args, s.current + PartsValue(parts)) && (rest != "" ==> !end.escaped)
    decreases |parts|
  {
    if parts == [] {
      end := s;
      assert PartsText(parts) + rest == rest && s.current + PartsValue(parts) == s.current;
    } else {
      var p, more := parts[0], PartsText(parts[1..]) + rest;
      assert PartsText(parts) + rest == PartText(p) + more;
      if p.Dangling? {
        end := Feed(s, '\\');
        NothingFollows(parts[1..], rest);
        SplitOne(s, '\\', more);
        assert parts[1..] == [] && PartsValue(parts) == PartValue(p) + "" == "\\";
      } else {
        PartReads(s, p, more);
        end := PartsRead(Grown(s, PartValue(p)), parts[1..], rest);
        Assoc(s.current, PartValue(p), PartsValue(parts[1..]));
      }
    }
  }

  lemma NothingFollows(parts: seq<Part>, rest: string)
    requires PartsText(parts) + rest == ""
    ensures parts == [] && rest == ""
  {
    PartsAreLong(parts);
  }

  lemma PartsAreLong(parts: seq<Part>)
    ensures parts != [] ==> PartsText(parts) != ""
  {
    if parts != [] { assert |PartText(parts[0])| > 0; }
  }

  lemma {:induction false} GapReads(s: Lex, gap: string, rest: string)
    requires Between(s) && Spaces(gap)
    ensures SplitFrom(s, gap + rest) ==
      SplitFrom(if s.inToken && gap != "" then Lex(s.args + [s.current], "", false, Bare, false) else s, rest)
    decreases |gap|
  {
    if gap == "" {
      assert gap + rest == rest;
    } else {
      assert gap + rest == [gap[0]] + (gap[1..] + rest);
      SplitOne(s, gap[0], gap[1..] + rest);
      GapReads(Feed(s, gap[0]), gap[1..], rest);
    }
  }

  predicate Idle(s: Lex) {
    Between(s) && !s.inToken && s.current == ""
  }

  /** Between words: reading the words that follow adds their values. */
  lemma {:induction false} WordsRead(s: Lex, words: seq<Word>, tail: string)
    requires Idle(s) && WordsOk(words, tail) && Spaces(tail)
    ensures Finish(SplitFrom(s, WordsText(words) + tail)) == Ok(s.args + Values(words))
    decreases |words|
  {
    if words == [] {
      assert WordsText(words) + tail == tail + "";
      GapReads(s, tail, "");
      assert s.args + Values(words) == s.args;
    } else {
      var w, more := words[0], WordsText(words[1..]) + tail;
      FirstWord(words, tail);
      WordReads(s, w, more);
      WordsRead(Lex(s.args + [PartsValue(w.parts)], "", false, Bare, false), words[1..], tail);
      FirstValue(s.args, words);
    }
  }

  lemma FirstWord(words: seq<Word>, tail: string)
    requires words != []
    ensures WordsText(words) + tail ==
      words[0].gap + (PartsText(words[0].parts) + (WordsText(words[1..]) + tail))
  {
    var a, b, c := words[0].gap, PartsText(words[0].parts), WordsText(words[1..]);
    Assoc(a + b, c, tail);
    Assoc(a, b, c + tail);
  }

  lemma FirstValue(args: seq<string>, words: seq<Word>)
    requires words != []
    ensures args + [PartsValue(words[0].parts)] + Values(words[1..]) == args + Values(words)
  {
  }

  lemma WordReads(s: Lex, w: Word, more: string)
    requires Idle(s) && Spaces(w.gap) && w.parts != [] && AtEnd(more) && PartsOk(w.parts, more)
    ensures Finish(SplitFrom(s, w.gap + (PartsText(w.parts) + more))) ==
      Finish(SplitFrom(Lex(s.args + [PartsValue(w.parts)], "", false, Bare, false), more))
  {
    GapReads(s, w.gap, PartsText(w.parts) + more);
    var end := PartsRead(s, w.parts, more);
    assert s.current + PartsValue(w.parts) == PartsValue(w.parts);
    WordBreaks(end, s.args, PartsValue(w.parts), more);
  }

  /** A word that ends is an argument, whether more follows or not. */
  lemma WordBreaks(end: Lex, args: seq<string>, text: string, rest: string)
    requires Holds(end, args, text) && AtEnd(rest) && (rest != "" ==> !end.escaped)
    ensures Finish(SplitFrom(end, rest)) == Finish(SplitFrom(Lex(args + [text], "", false, Bare, false), rest))
  {
    if rest != "" {
      assert Feed(end, rest[0]) == Lex(args + [text], "", false, Bare, false);
    }
  }

  /** A line written in the notation is split into the values of its words. */
  lemma LineIsSplit(line: Line)
    requires LineOk(line)
    ensures Split(LineText(line)) == Ok(Values(line.words))
  {
    WordsRead(START, line.words, line.tail);
    assert [] + Values(line.words) == Values(line.words);
  }

  // ---------- Every line that splits is written so ----------

  ghost predicate Accepted(s: Lex, rest: string) {
    Finish(SplitFrom(s, rest)).Ok?
  }

  lemma {:induction false} TextIsThere(s: Lex, rest: string) returns (text: string, after: string)
    requires s.quote == Single && !s.escaped && s.inToken && Accepted(s, rest)
    ensures '\'' !in text && rest == text + "'" + after
    decreases |rest|
  {
    assert rest == [rest[0]] + rest[1..];
    SplitOne(s, rest[0], rest[1..]);
    if rest[0] == '\'' {
      text, after := "", rest[1..];
    } else {
      var more;
      more, after := TextIsThere(Feed(s, rest[0]), rest[1..]);
      text := [rest[0]] + more;
    }
  }

  lemma {:induction false} MarksAreThere(s: Lex, rest: string)
    returns (marks: seq<Mark>, folder: bool, after: string)
    requires s.quote == Double && !s.escaped && s.inToken && Accepted(s, rest)
    ensures MarksOk(marks) && (folder ==> AtEnd(after))
    ensures rest == MarksText(marks) + ((if folder then "\\\"" else "\"") + after)
    decreases |rest|
  {
    var c := rest[0];
    if c == '"' {
      marks, folder, after := [], false, rest[1..];
    } else if ClosingBackslash(s, rest) {
      marks, folder, after := [], true, rest[2..];
      assert rest == "" + (['\\', '"'] + rest[2..]);
    } else {
      var m, later := MarkIsThere(s, rest);
      var more;
      more, folder, after := MarksAreThere(s.(current := s.current + MarkValue(m)), later);
      marks := [m] + more;
      MarkFits(m, more, (if folder then "\\\"" else "\"") + after, later);
    }
  }

  lemma MarkIsThere(s: Lex, rest: string) returns (m: Mark, later: string)
    requires s.quote == Double && !s.escaped && s.inToken && Accepted(s, rest)
    requires rest != "" && rest[0] != '"' && !ClosingBackslash(s, rest)
    ensures MarkOk(m) && rest == MarkText(m) + later && Accepted(s.(current := s.current + MarkValue(m)), later)
    ensures m == Spared('"') ==> later != "" && !IsSpace(later[0])
  {
    var c := rest[0];
    if c != '\\' {
      m, later := Sign(c), rest[1..];
    } else {
      LoneSlashIsOpen(s, rest);
      var d := rest[1];
      m, later := if d == '"' || d == '\\' then Spared(d) else Slashed(d), rest[2..];
    }
    assert rest == MarkText(m) + later;
    MarkReads(s, m, later);
  }

  /** Inside double quotes a backslash is not the end of a line that splits. */
  lemma LoneSlashIsOpen(s: Lex, rest: string)
    requires s.quote == Double && !s.escaped && rest != "" && rest[0] == '\\' && Accepted(s, rest)
    ensures |rest| > 1
  {
    var t := Feed(s, '\\');
    assert |rest| == 1 ==> rest[1..] == "" && SplitFrom(s, rest) == SplitFrom(t, "") == t;
  }

  lemma MarkFits(m: Mark, more: seq<Mark>, end: string, later: string)
    requires MarkOk(m) && MarksOk(more) && later == MarksText(more) + end
    requires m == Spared('"') ==> later != "" && !IsSpace(later[0])
    ensures MarksOk([m] + more) && MarksText([m] + more) + end == MarkText(m) + later
  {
    var marks := [m] + more;
    assert marks[1..] == more;
    if more != [] { assert MarksText(more)[0] == MarkText(more[0])[0] == later[0]; }
    Assoc(MarkText(m), MarksText(more), end);
  }

  lemma SingleIsThere(s: Lex, rest: string) returns (p: Part, later: string)
    requires Between(s) && Accepted(s, rest) && rest != "" && rest[0] == '\''
    ensures PartOk(p) && rest == PartText(p) + later && p.InSingle?
  {
    assert rest == ['\''] + rest[1..];
    SplitOne(s, '\'', rest[1..]);
    var text;
    text, later := TextIsThere(Feed(s, '\''), rest[1..]);
    p := InSingle(text);
    assert "'" + (text + "'" + later) == "'" + text + "'" + later;
  }

  lemma DoubleIsThere(s: Lex, rest: string) returns (p: Part, later: string)
    requires Between(s) && Accepted(s, rest) && rest != "" && rest[0] == '"'
    ensures PartOk(p) && rest == PartText(p) + later
    ensures !p.Dangling? && (p.Folder? ==> AtEnd(later))
  {
    assert rest == ['"'] + rest[1..];
    SplitOne(s, '"', rest[1..]);
    var marks, folder;
    marks, folder, later := MarksAreThere(Feed(s, '"'), rest[1..]);
    p := if folder then Folder(marks) else InDouble(marks);
    var end := if folder then "\\\"" else "\"";
    assert "\"" + (MarksText(marks) + (end + later)) == "\"" + MarksText(marks) + end + later;
  }

  lemma PartIsThere(s: Lex, rest: string) returns (p: Part, later: string)
    requires Between(s) && Accepted(s, rest) && !AtEnd(rest)
    ensures PartOk(p) && rest == PartText(p) + later
    ensures (p.Folder? ==> AtEnd(later)) && (p.Dangling? ==> later == "")
  {
    var c := rest[0];
    if c == '\'' {
      p, later := SingleIsThere(s, rest);
    } else if c == '"' {
      p, later := DoubleIsThere(s, rest);
    } else if c != '\\' {
      p, later := Letter(c), rest[1..];
    } else if |rest| == 1 {
      p, later := Dangling, "";
    } else {
      var d := rest[1];
      p := if d in ESCAPABLE then Escaped(d) else Literal(d);
      later := rest[2..];
    }
  }

  lemma {:induction false} PartsAreThere(s: Lex, rest: string) returns (parts: seq<Part>, after: string)
    requires Between(s) && Accepted(s, rest)
    ensures PartsOk(parts, after) && AtEnd(after) && rest == PartsText(parts) + after
    ensures parts == [] ==> AtEnd(rest)
    decreases |rest|
  {
    if AtEnd(rest) {
      parts, after := [], rest;
      assert rest == "" + rest;
    } else {
      var p, later := PartIsThere(s, rest);
      var more;
      if p.Dangling? {
        more, after := [], "";
      } else {
        PartReads(s, p, later);
        more, after := PartsAreThere(Grown(s, PartValue(p)), later);
      }
      parts := [p] + more;
      assert parts[1..] == more && later == PartsText(more) + after;
      Assoc(PartText(p), PartsText(more), after);
    }
  }

  lemma {:induction false} GapIsThere(rest: string) returns (gap: string, after: string)
    ensures Spaces(gap) && rest == gap + after && (after == "" || !IsSpace(after[0]))
  {
    if rest == "" || !IsSpace(rest[0]) {
      gap, after := "", rest;
    } else {
      var more;
      more, after := GapIsThere(rest[1..]);
      gap := [rest[0]] + more;
    }
  }

  lemma {:induction false} WordsAreThere(s: Lex, rest: string) returns (words: seq<Word>, tail: string)
    requires Idle(s) && Accepted(s, rest)
    ensures WordsOk(words, tail) && Spaces(tail) && rest == WordsText(words) + tail
    decreases |rest|
  {
    var gap, after := GapIsThere(rest);
    if after == "" {
      words, tail := [], gap;
    } else {
      GapReads(s, gap, after);
      var parts, more := PartsAreThere(s, after);
      var w, next := Word(gap, parts), Lex(s.args + [PartsValue(parts)], "", false, Bare, false);
      assert rest == gap + (PartsText(parts) + more);
      PartsAreLong(parts);
      WordReads(s, w, more);
      var later;
      later, tail := WordsAreThere(next, more);
      words := [w] + later;
      assert words[1..] == later && gap + PartsText(parts) + more == rest;
      Assoc(gap + PartsText(parts), WordsText(later), tail);
    }
  }

  /** Splitting gives `args` exactly if the line is written in the notation, with words of these values. */
  lemma SplitIsTheNotation(input: string, args: seq<string>)
    ensures Split(input) == Ok(args) <==>
      exists line :: LineOk(line) && LineText(line) == input && Values(line.words) == args
  {
    forall line | LineOk(line) && LineText(line) == input ensures Split(input) == Ok(Values(line.words)) {
      LineIsSplit(line);
    }
    if Split(input) == Ok(args) {
      var words, tail := WordsAreThere(START, input);
      var line := Line(words, tail);
      assert LineOk(line) && LineText(line) == input;
    }
  }
}
