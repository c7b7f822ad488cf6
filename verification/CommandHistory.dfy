/**
 The command history that several sessions share through one file: a bounded list without adjacent repetitions,
 rewritten as a whole under a file lock, with the lines of a failed write kept for the next.
 */
module CommandHistory {
  import opened Prelude

  const COMMAND_HISTORY_LIMIT := 500

  // ---------- Lists of lines ----------

  /** appendHistoryLine. */
  function AppendHistoryLine(lines: seq<string>, line: string): seq<string> {
    if line == "" || (|lines| > 0 && lines[|lines| - 1] == line) then lines
    else Capped(lines + [line])
  }

  function Capped(lines: seq<string>): seq<string> {
    if |lines| > COMMAND_HISTORY_LIMIT then lines[|lines| - COMMAND_HISTORY_LIMIT..] else lines
  }

  function Appended(lines: seq<string>, more: seq<string>): seq<string> {
    if more == [] then lines
    else AppendHistoryLine(Appended(lines, more[..|more| - 1]), more[|more| - 1])
  }

  /** At most the limit, no empty line, and no two adjacent lines equal. */
  predicate WellFormed(lines: seq<string>) {
    |lines| <= COMMAND_HISTORY_LIMIT && Squeezed(lines)
  }

  predicate Squeezed(lines: seq<string>) {
    && (forall i :: 0 <= i < |lines| ==> lines[i] != "")
    && (forall i :: 0 < i < |lines| ==> lines[i - 1] != lines[i])
  }

  lemma AppendKeepsWellFormed(lines: seq<string>, line: string)
    requires WellFormed(lines)
    ensures WellFormed(AppendHistoryLine(lines, line))
  {
  }

  lemma {:induction false} AppendedIsWellFormed(lines: seq<string>, more: seq<string>)
    requires WellFormed(lines)
    ensures WellFormed(Appended(lines, more))
    decreases |more|
  {
    if more != [] {
      AppendedIsWellFormed(lines, more[..|more| - 1]);
      AppendKeepsWellFormed(Appended(lines, more[..|more| - 1]), more[|more| - 1]);
    }
  }

  lemma {:induction false} AppendedTwice(lines: seq<string>, a: seq<string>, b: seq<string>)
    ensures Appended(lines, a + b) == Appended(Appended(lines, a), b)
    decreases |b|
  {
    if b == [] {
      assert a + b == a;
    } else {
      AppendedTwice(lines, a, b[..|b| - 1]);
      assert (a + b)[..|a + b| - 1] == a + b[..|b| - 1];
    }
  }

  // ---------- Appending in one go or piece by piece ----------

  /** Appending without the limit. */
  function Joint(lines: seq<string>, line: string): seq<string> {
    if line == "" || (|lines| > 0 && lines[|lines| - 1] == line) then lines else lines + [line]
  }

  function Unbounded(lines: seq<string>, more: seq<string>): seq<string> {
    if more == [] then lines else Joint(Unbounded(lines, more[..|more| - 1]), more[|more| - 1])
  }

  lemma CapLater(lines: seq<string>, line: string)
    ensures AppendHistoryLine(Capped(lines), line) == Capped(Joint(lines, line))
  {
  }

  /** What is over the limit goes from the front: the newest five hundred lines stay. */
  lemma CappedKeepsNewest(lines: seq<string>)
    ensures |Capped(lines)| == if |lines| <= 500 then |lines| else 500
    ensures exists gone :: lines == gone + Capped(lines)
  {
    assert lines == lines[..|lines| - |Capped(lines)|] + Capped(lines);
  }

  /** The limit may as well be applied once, at the end. */
  lemma {:induction false} LimitAtTheEnd(lines: seq<string>, more: seq<string>)
    requires |lines| <= COMMAND_HISTORY_LIMIT
    ensures Appended(lines, more) == Capped(Unbounded(lines, more))
    decreases |more|
  {
    if more != [] {
      LimitAtTheEnd(lines, more[..|more| - 1]);
      CapLater(Unbounded(lines, more[..|more| - 1]), more[|more| - 1]);
    }
  }

  lemma {:induction false} UnboundedIsSqueezed(more: seq<string>)
    ensures Squeezed(Unbounded([], more))
    decreases |more|
  {
    if more != [] {
      UnboundedIsSqueezed(more[..|more| - 1]);
    }
  }

  /** How squeezed lines are joined to others: all of them, or all but a first one that is already there. */
  function Glued(lines: seq<string>, more: seq<string>): seq<string> {
    if more != [] && lines != [] && lines[|lines| - 1] == more[0] then lines + more[1..] else lines + more
  }

  lemma {:induction false} UnboundedIsGlued(lines: seq<string>, more: seq<string>)
    requires Squeezed(more)
    ensures Unbounded(lines, more) == Glued(lines, more)
    decreases |more|
  {
    if more == [] {
      assert lines + more == lines;
    } else {
      UnboundedIsGlued(lines, more[..|more| - 1]);
      GluedOneMore(lines, more);
    }
  }

  lemma GluedOneMore(lines: seq<string>, more: seq<string>)
    requires more != [] && Squeezed(more)
    ensures Joint(Glued(lines, more[..|more| - 1]), more[|more| - 1]) == Glued(lines, more)
  {
    var n := |more| - 1;
    var init, last := more[..n], more[n];
    assert init + [last] == more;
    if n == 0 {
      assert lines + init == lines && more[1..] == [];
      assert lines + [] == lines;
    } else {
      assert init[1..] + [last] == more[1..];
      LastOfGlued(lines, init);
      assert last != more[n - 1];
      Assoc(lines, init, [last]);
      Assoc(lines, init[1..], [last]);
    }
  }

  lemma LastOfGlued(lines: seq<string>, more: seq<string>)
    requires more != []
    ensures Glued(lines, more) != [] && Glued(lines, more)[|Glued(lines, more)| - 1] == more[|more| - 1]
  {
    if more[1..] == [] { assert lines + [] == lines && more == [more[0]]; }
  }

  /** Squeezing first changes nothing. */
  lemma {:induction false} SqueezeFirst(lines: seq<string>, more: seq<string>)
    ensures Unbounded(lines, more) == Unbounded(lines, Unbounded([], more))
    decreases |more|
  {
    if more != [] {
      var init, last := more[..|more| - 1], more[|more| - 1];
      SqueezeFirst(lines, init);
      var squeezed := Unbounded([], init);
      if Joint(squeezed, last) == squeezed + [last] {
        assert (squeezed + [last])[..|squeezed|] == squeezed;
      } else {
        RepeatedLast(lines, squeezed, last);
      }
    }
  }

  lemma RepeatedLast(lines: seq<string>, squeezed: seq<string>, last: string)
    requires Joint(squeezed, last) == squeezed
    ensures Joint(Unbounded(lines, squeezed), last) == Unbounded(lines, squeezed)
  {
    if last != "" {
      assert squeezed + [last] != squeezed;
      LastStays(lines, squeezed);
    }
  }

  lemma LastStays(lines: seq<string>, more: seq<string>)
    requires more != [] && more[|more| - 1] != ""
    ensures var r := Unbounded(lines, more); r != [] && r[|r| - 1] == more[|more| - 1]
  {
  }

  /** Keeping only the newest lines of what is to be appended changes nothing. */
  lemma CapFirst(lines: seq<string>, more: seq<string>)
    requires Squeezed(more)
    ensures Capped(Unbounded(lines, more)) == Capped(Unbounded(lines, Capped(more)))
  {
    if |more| > COMMAND_HISTORY_LIMIT {
      UnboundedIsGlued(lines, more);
      UnboundedIsGlued(lines, Capped(more));
      CappedGlued(lines, more);
      CappedGlued(lines, Capped(more));
    }
  }

  /** What reaches the limit by itself, or is longer, hides all that comes before. */
  lemma CappedGlued(lines: seq<string>, more: seq<string>)
    requires |more| >= COMMAND_HISTORY_LIMIT
    ensures Capped(Glued(lines, more)) == Capped(more)
  {
    if Glued(lines, more) == lines + more {
      CappedSuffix(lines, more);
    } else {
      var before := lines[..|lines| - 1];
      assert lines + more[1..] == before + more;
      CappedSuffix(before, more);
    }
  }

  lemma CappedSuffix(before: seq<string>, more: seq<string>)
    requires |more| >= COMMAND_HISTORY_LIMIT
    ensures Capped(before + more) == Capped(more)
  {
    assert (before + more)[|before + more| - COMMAND_HISTORY_LIMIT..] == more[|more| - COMMAND_HISTORY_LIMIT..];
  }

  /** Lines gathered first and appended later leave the same list as lines appended one by one. */
  lemma GatheredFirst(lines: seq<string>, more: seq<string>)
    requires |lines| <= COMMAND_HISTORY_LIMIT
    ensures Appended(lines, Appended([], more)) == Appended(lines, more)
  {
    LimitAtTheEnd([], more);
    LimitAtTheEnd(lines, more);
    LimitAtTheEnd(lines, Appended([], more));
    UnboundedIsSqueezed(more);
    SqueezeFirst(lines, more);
    CapFirst(lines, Unbounded([], more));
  }
}
