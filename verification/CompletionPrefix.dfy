/**
 Several candidates: what they have in common, escaped as they are, replaces the word at the cursor. When the next
 completion still finds all of them is stated exactly.
 */
module CompletionPrefix {
  import opened Prelude
  import opened CommandLine
  import opened Completion
  import opened CompletionSplice

  // ---------- The common prefix ----------

  /** The first `k` candidates begin with `p`. */
  predicate CommonTo(candidates: seq<string>, k: nat, p: string)
    requires k <= |candidates|
  {
    forall i :: 0 <= i < k ==> p <= candidates[i]
  }

  predicate Common(candidates: seq<string>, p: string) {
    CommonTo(candidates, |candidates|, p)
  }

  /** commonCompletionPrefix: the longest text that all candidates begin with. */
  method CommonCompletionPrefix(candidates: seq<string>) returns (prefix: string)
    requires candidates != []
    ensures Common(candidates, prefix)
    ensures forall p :: Common(candidates, p) ==> p <= prefix
  {
    prefix := candidates[0];
    var i := 1;
    while i < |candidates|
      invariant 1 <= i <= |candidates| && CommonTo(candidates, i, prefix)
      invariant forall p :: CommonTo(candidates, i, p) ==> p <= prefix
    {
      var rs := candidates[i];
      var n := 0;
      while n < |prefix| && n < |rs| && prefix[n] == rs[n]
        invariant n <= |prefix| && n <= |rs| && prefix[..n] == rs[..n]
      {
        n := n + 1;
      }
      OneMoreCandidate(candidates, i, i + 1, prefix, n);
      prefix := prefix[..n];
      i := i + 1;
    }
  }

  lemma OneMoreCandidate(candidates: seq<string>, i: nat, next: nat, prefix: string, n: nat)
    requires next == i + 1 <= |candidates| && n <= |prefix| && n <= |candidates[i]| && prefix[..n] == candidates[i][..n]
    requires n < |prefix| && n < |candidates[i]| ==> prefix[n] != candidates[i][n]
    requires CommonTo(candidates, i, prefix) && forall p :: CommonTo(candidates, i, p) ==> p <= prefix
    ensures CommonTo(candidates, next, prefix[..n])
    ensures forall p :: CommonTo(candidates, next, p) ==> p <= prefix[..n]
  {
    forall p | CommonTo(candidates, next, p) ensures p <= prefix[..n] {
      assert CommonTo(candidates, i, p) && p <= candidates[i];
      BothBegin(p, prefix, candidates[i], n);
    }
  }

  lemma BothBegin(p: string, a: string, b: string, n: nat)
    requires p <= a && p <= b && n <= |a| && n <= |b| && (n < |a| && n < |b| ==> a[n] != b[n])
    ensures p <= a[..n]
  {
    assert forall k :: 0 <= k < |p| ==> a[k] == p[k] == b[k];
  }

  // ---------- What is left of a candidate ----------

  /** The prefix ends inside an escape: what it stops before never stands without a backslash. */
  predicate Cuts(p: string, escaped: string) {
    |p| < |escaped| && escaped[|p|] in {' ', '\t', '\'', '"'}
  }

  /** Reading a beginning of an escaped text gives a beginning of the text, unless an escape is cut. */
  lemma {:induction false} ReadBeginning(s: Lex, prior: char, c: string, p: string)
    requires s.quote == Bare && s.escaped == (prior == '\\') && FaithfulAfter(prior, c) && p <= Escape(c)
    ensures var s' := FeedAll(s, p);
      && s'.args == s.args && s'.quote == Bare
      && (Text(s') <= Text(s) + c <==> !Cuts(p, Escape(c)))
    decreases |c|
  {
    if p == "" {
      EscapeBegins(c);
    } else {
      FaithfulStep(prior, c);
      var e := Escaped(c[0]);
      if |e| <= |p| {
        BeginningGoesOn(s, c, p);
        FeedEscaped(s, c[0]);
        ReadBeginning(FeedAll(s, e), c[0], c[1..], p[|e|..]);
        assert c == [c[0]] + c[1..];
        Assoc(Text(s), [c[0]], c[1..]);
      } else {
        HalfAnEscape(s, c, p);
      }
    }
  }

  lemma EscapeBegins(c: string)
    ensures !Cuts("", Escape(c))
  {
  }

  lemma BeginningGoesOn(s: Lex, c: string, p: string)
    requires c != "" && p <= Escape(c) && |Escaped(c[0])| <= |p|
    ensures var e := Escaped(c[0]);
      && p == e + p[|e|..] && p[|e|..] <= Escape(c[1..])
      && FeedAll(s, p) == FeedAll(FeedAll(s, e), p[|e|..])
      && (Cuts(p, Escape(c)) <==> Cuts(p[|e|..], Escape(c[1..])))
  {
    var e := Escaped(c[0]);
    BeginningBehind(e, Escape(c[1..]), p);
    FeedAllAppend(s, e, p[|e|..]);
  }

  lemma BeginningBehind(e: string, rest: string, p: string)
    requires p <= e + rest && |e| <= |p|
    ensures p == e + p[|e|..] && p[|e|..] <= rest && (Cuts(p, e + rest) <==> Cuts(p[|e|..], rest))
  {
    var q := p[|e|..];
    assert p == e + q;
    assert forall i :: 0 <= i < |q| ==> q[i] == (e + rest)[|e| + i] == rest[i];
    assert |q| < |rest| ==> (e + rest)[|e| + |q|] == rest[|q|];
  }

  /** The first half of an escape is read as a backslash. */
  lemma HalfAnEscape(s: Lex, c: string, p: string)
    requires s.quote == Bare && c != "" && MayFollow(if s.escaped then '\\' else '/', c[0])
    requires p <= Escape(c) && p != "" && |p| < |Escaped(c[0])|
    ensures var s' := FeedAll(s, p);
      s'.args == s.args && s'.quote == Bare && Cuts(p, Escape(c)) && !(Text(s') <= Text(s) + c)
  {
    assert p == "\\" && FeedAll(s, p) == Feed(s, '\\');
    assert (Text(s) + c)[|Text(s)|] == c[0];
    assert Text(Feed(s, '\\'))[|Text(s)|] == '\\';
  }

  // ---------- Completing again ----------

  lemma PartialIsText(content: string)
    ensures CompletionCursor(content).partial == Text(CompletionScan(content).lex)
  {
    assert ScanOk(CompletionScan(content), content);
  }

  /** What the next completion takes for the beginning of the word, when `p` has replaced the word at the cursor. */
  lemma NextPartial(content: string, p: string)
    requires CompletionCursor(content).quoteChar == Bare
    ensures var head, args := CompletionCursor(content).head, CompletionScan(content).lex.args;
      CompletionCursor(head + p).partial == Text(FeedAll(Gap(args), p))
  {
    var s, head := CompletionScan(content), CompletionCursor(content).head;
    assert ScanOk(s, content);
    assert FeedAll(START, head) == Gap(s.lex.args);
    FeedAllAppend(START, head, p);
    PartialIsText(head + p);
    assert ScanOk(CompletionScan(head + p), head + p);
  }

  /** The candidates as they are offered at an unquoted cursor. */
  function EscapedAll(cs: seq<string>): seq<string> {
    seq(|cs|, i requires 0 <= i < |cs| => FormatCompletionCandidate(cs[i], Bare, false))
  }

  /**
   After a common prefix of faithful candidates has replaced the word at an unquoted cursor, the next completion still
   looks for the beginning of every candidate if and only if the prefix cuts no escape.
   */
  lemma CommonPrefixKeepsAllIff(content: string, cs: seq<string>, p: string)
    requires CompletionCursor(content).quoteChar == Bare
    requires (forall i :: 0 <= i < |cs| ==> Faithful(cs[i])) && Common(EscapedAll(cs), p)
    ensures var next := CompletionCursor(CompletionCursor(content).head + p).partial;
      Common(cs, next) <==> forall i :: 0 <= i < |cs| ==> !Cuts(p, Escape(cs[i]))
  {
    NextPartial(content, p);
    var args := CompletionScan(content).lex.args;
    forall i | 0 <= i < |cs| ensures Text(FeedAll(Gap(args), p)) <= cs[i] <==> !Cuts(p, Escape(cs[i])) {
      assert EscapedAll(cs)[i] == Escape(cs[i]);
      ReadBeginning(Gap(args), '/', cs[i], p);
      assert Text(Gap(args)) + cs[i] == cs[i];
    }
  }

  /** Two names that differ in a character to be escaped: the prefix ends in a backslash, and neither begins with it. */
  method CutPrefixFindsNothing() returns (prefix: string, next: string)
    ensures prefix == "a\\" && next == "a\\" && !(next <= "a b") && !(next <= "a'b")
  {
    var first := EscapeShellArg("a b");
    var second := EscapeShellArg("a'b");
    EscapedExamples();
    prefix := CommonCompletionPrefix([first, second]);
    LongestOfTwo(first, second, prefix);
    var cursor := ParseCompletionCursor("cd " + prefix);
    next := cursor.partial;
    ReadExample(prefix);
  }

  lemma LongestOfTwo(first: string, second: string, prefix: string)
    requires first == "a\\ b" && second == "a\\'b" && Common([first, second], prefix)
    requires Common([first, second], "a\\") ==> "a\\" <= prefix
    ensures prefix == "a\\"
  {
    var both := [first, second];
    assert both[0] == first && both[1] == second;
    assert prefix <= first && prefix <= second;
    BothBegin(prefix, first, second, 2);
    assert first[..2] == "a\\" && second[..2] == "a\\";
  }

  lemma EscapedExamples()
    ensures Escape("a b") == "a\\ b" && Escape("a'b") == "a\\'b"
  {
    assert "a b"[1..] == " b" && " b"[1..] == "b" && "b"[1..] == "";
    assert "a'b"[1..] == "'b" && "'b"[1..] == "b";
  }

  lemma ReadExample(prefix: string)
    requires prefix == "a\\"
    ensures CompletionCursor("cd " + prefix).partial == "a\\"
  {
    var line := "cd " + prefix;
    PartialIsText(line);
    assert ScanOk(CompletionScan(line), line);
    FeedAllAppend(START, "cd ", prefix);
    FeedCd();
    FeedCut(Gap(["cd"]), prefix);
  }

  lemma FeedCut(s: Lex, prefix: string)
    requires s == Gap(["cd"]) && prefix == "a\\"
    ensures Text(FeedAll(s, prefix)) == "a\\"
  {
    assert prefix[1..] == "\\" && "\\"[1..] == "";
    assert FeedAll(s, prefix) == FeedAll(Feed(s, 'a'), "\\") == Feed(Feed(s, 'a'), '\\');
  }

  lemma FeedCd()
    ensures FeedAll(START, "cd ") == Gap(["cd"])
  {
    var s1 := Lex([], "c", true, Bare, false);
    var s2 := Lex([], "cd", true, Bare, false);
    assert Feed(START, 'c') == s1 && Feed(s1, 'd') == s2 && Feed(s2, ' ') == Gap(["cd"]);
    FeedThree(START, s1, s2, Gap(["cd"]), "cd ");
  }

  lemma FeedThree(s: Lex, s1: Lex, s2: Lex, s3: Lex, text: string)
    requires |text| == 3 && s1 == Feed(s, text[0]) && s2 == Feed(s1, text[1]) && s3 == Feed(s2, text[2])
    ensures FeedAll(s, text) == s3
  {
    var last := [text[2]];
    assert text[1..][1..] == last && last[1..] == "";
    assert FeedAll(s2, last) == FeedAll(s3, "") == s3;
    assert FeedAll(s1, text[1..]) == FeedAll(s2, last);
    assert FeedAll(s, text) == FeedAll(s1, text[1..]);
  }
}
