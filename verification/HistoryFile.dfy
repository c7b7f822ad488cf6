/** The text of the history file, and sessions that append to it in any order under the file lock. */
module HistoryFile {
  import opened Prelude
  import opened CommandHistory

  // ---------- Cleaning a line ----------

  predicate IsControl(c: char) {
    c < ' ' || '\U{7F}' <= c <= '\U{9F}'
  }

  /** normalizePastedText. */
  function Normalized(s: string): string {
    if s == "" then ""
    else if |s| > 1 && s[0] == '\r' && s[1] == '\n' then " " + Normalized(s[2..])
    else if s[0] == '\n' || s[0] == '\r' || s[0] == '\t' then " " + Normalized(s[1..])
    else if IsControl(s[0]) then Normalized(s[1..])
    else [s[0]] + Normalized(s[1..])
  }

  function TrimmedLeft(s: string): string {
    if s != "" && IsSpace(s[0]) then TrimmedLeft(s[1..]) else s
  }

  function TrimmedRight(s: string): string {
    if s != "" && IsSpace(s[|s| - 1]) then TrimmedRight(s[..|s| - 1]) else s
  }

  function Clean(s: string): string {
    TrimmedRight(TrimmedLeft(Normalized(s)))
  }

  predicate NoControl(s: string) {
    forall i :: 0 <= i < |s| ==> !IsControl(s[i])
  }

  predicate IsClean(s: string) {
    NoControl(s) && (s != "" ==> !IsSpace(s[0]) && !IsSpace(s[|s| - 1]))
  }

  lemma {:induction false} NormalizedHasNoControl(s: string)
    ensures NoControl(Normalized(s))
    decreases |s|
  {
    if s != "" {
      if |s| > 1 && s[0] == '\r' && s[1] == '\n' {
        NormalizedHasNoControl(s[2..]);
      } else {
        NormalizedHasNoControl(s[1..]);
      }
    }
  }

  lemma {:induction false} TrimmedLeftIsClean(s: string)
    requires NoControl(s)
    ensures var r := TrimmedLeft(s); NoControl(r) && (r != "" ==> !IsSpace(r[0]))
    decreases |s|
  {
    if s != "" && IsSpace(s[0]) {
      TrimmedLeftIsClean(s[1..]);
    }
  }

  lemma {:induction false} TrimmedRightIsClean(s: string)
    requires NoControl(s) && (s != "" ==> !IsSpace(s[0]))
    ensures IsClean(TrimmedRight(s))
    decreases |s|
  {
    if s != "" && IsSpace(s[|s| - 1]) {
      TrimmedRightIsClean(s[..|s| - 1]);
    }
  }

  lemma CleanIsClean(s: string)
    ensures IsClean(Clean(s))
  {
    NormalizedHasNoControl(s);
    TrimmedLeftIsClean(Normalized(s));
    TrimmedRightIsClean(TrimmedLeft(Normalized(s)));
  }

  predicate Blank(s: string) {
    forall i :: 0 <= i < |s| ==> IsSpace(s[i])
  }

  lemma {:induction false} TrimmedLeftOnly(s: string) returns (left: string)
    ensures Blank(left) && s == left + TrimmedLeft(s)
    decreases |s|
  {
    left := "";
    if s != "" && IsSpace(s[0]) {
      var more := TrimmedLeftOnly(s[1..]);
      left := [s[0]] + more;
    }
  }

  lemma {:induction false} TrimmedRightOnly(s: string) returns (right: string)
    ensures Blank(right) && s == TrimmedRight(s) + right
    decreases |s|
  {
    right := "";
    if s != "" && IsSpace(s[|s| - 1]) {
      var more := TrimmedRightOnly(s[..|s| - 1]);
      right := more + [s[|s| - 1]];
    }
  }

  /** Beyond that, cleaning takes spaces away at both ends, and nothing else. */
  lemma CleanOnlyTrims(s: string) returns (left: string, right: string)
    ensures Blank(left) && Blank(right) && Normalized(s) == left + Clean(s) + right
  {
    left := TrimmedLeftOnly(Normalized(s));
    right := TrimmedRightOnly(TrimmedLeft(Normalized(s)));
    Assoc(left, Clean(s), right);
  }

  lemma {:induction false} NormalizedKeeps(s: string)
    requires NoControl(s)
    ensures Normalized(s) == s
    decreases |s|
  {
    if s != "" {
      assert !IsControl(s[0]);
      NormalizedKeeps(s[1..]);
    }
  }

  lemma CleanKeepsClean(s: string)
    requires IsClean(s)
    ensures Clean(s) == s
  {
    NormalizedKeeps(s);
  }

  /** Cleaning goes rune by rune, except that a return and a line feed are one line break. */
  lemma {:induction false} NormalizedOfTwo(a: string, b: string)
    requires !(a != "" && a[|a| - 1] == '\r' && b != "" && b[0] == '\n')
    ensures Normalized(a + b) == Normalized(a) + Normalized(b)
    decreases |a|
  {
    if a == "" {
      assert a + b == b;
    } else {
      var ab := a + b;
      assert ab[0] == a[0] && ab[1..] == a[1..] + b;
      assert |a| > 1 ==> ab[1] == a[1];
      if |a| > 1 && a[0] == '\r' && a[1] == '\n' {
        assert ab[2..] == a[2..] + b;
        NormalizedOfTwo(a[2..], b);
        Assoc(" ", Normalized(a[2..]), Normalized(b));
      } else {
        assert |a| == 1 && b != "" ==> ab[1] == b[0];
        NormalizedFirst(a);
        NormalizedFirst(ab);
        NormalizedOfTwo(a[1..], b);
        Assoc(OneNormalized(a[0]), Normalized(a[1..]), Normalized(b));
      }
    }
  }

  function OneNormalized(c: char): string {
    if c == '\n' || c == '\r' || c == '\t' then " " else if IsControl(c) then "" else [c]
  }

  lemma NormalizedFirst(s: string)
    requires s != "" && !(|s| > 1 && s[0] == '\r' && s[1] == '\n')
    ensures Normalized(s) == OneNormalized(s[0]) + Normalized(s[1..])
  {
  }

  /** A line break or a tab becomes a space, other control characters go, and everything else stays. */
  lemma NormalizedOfOne(c: char)
    ensures Normalized("\r\n") == " "
    ensures Normalized([c]) ==
      if c == '\n' || c == '\r' || c == '\t' then " " else if c < ' ' || '\U{7F}' <= c <= '\U{9F}' then "" else [c]
  {
    assert "\r\n"[2..] == "" && [c][1..] == "";
  }

  // ---------- The file ----------

  /** What writeCommandHistory writes. */
  function FileText(lines: seq<string>): string {
    if lines == [] then "\n" else if |lines| == 1 then lines[0] + "\n" else lines[0] + "\n" + FileText(lines[1..])
  }

  function WithoutReturn(line: string): string {
    if line != "" && line[|line| - 1] == '\r' then line[..|line| - 1] else line
  }

  /** The lines a scanner finds in a text, after a part `line` of the first one. */
  function Scanned(text: string, line: string): seq<string>
    decreases |text|
  {
    if text == "" then if line == "" then [] else [WithoutReturn(line)]
    else if text[0] == '\n' then [WithoutReturn(line)] + Scanned(text[1..], "")
    else Scanned(text[1..], line + [text[0]])
  }

  function AllClean(lines: seq<string>): seq<string> {
    seq(|lines|, i requires 0 <= i < |lines| => Clean(lines[i]))
  }

  /** readCommandHistory; a missing file is an empty history. */
  function FileLines(file: Option<string>): seq<string> {
    match file case None => [] case Some(text) => Appended([], AllClean(Scanned(text, "")))
  }

  predicate CleanLines(lines: seq<string>) {
    forall i :: 0 <= i < |lines| ==> IsClean(lines[i])
  }

  lemma {:induction false} ScanLine(line: string, before: string, rest: string)
    requires NoControl(line)
    ensures Scanned(line + "\n" + rest, before) == [WithoutReturn(before + line)] + Scanned(rest, "")
    decreases |line|
  {
    var text := line + "\n" + rest;
    if line == "" {
      assert text[1..] == rest && before + line == before;
    } else {
      assert !IsControl(line[0]);
      ScanLine(line[1..], before + [line[0]], rest);
      assert text[1..] == line[1..] + "\n" + rest;
      assert before + [line[0]] + line[1..] == before + line;
    }
  }

  lemma {:induction false} ScanWritten(lines: seq<string>)
    requires CleanLines(lines) && lines != []
    ensures Scanned(FileText(lines), "") == lines
    decreases |lines|
  {
    var line := lines[0];
    assert IsClean(line) && "" + line == line;
    assert WithoutReturn(line) == line by {
      if line != "" { assert !IsControl(line[|line| - 1]); }
    }
    if |lines| == 1 {
      ScanLine(line, "", "");
      assert line + "\n" + "" == line + "\n";
    } else {
      ScanLine(line, "", FileText(lines[1..]));
      ScanWritten(lines[1..]);
    }
  }

  lemma AllCleanKeeps(lines: seq<string>)
    requires CleanLines(lines)
    ensures AllClean(lines) == lines
  {
    forall i | 0 <= i < |lines| ensures Clean(lines[i]) == lines[i] {
      CleanKeepsClean(lines[i]);
    }
  }

  /** A history that is written reads back as itself. */
  lemma ReadsBack(lines: seq<string>)
    requires WellFormed(lines) && CleanLines(lines)
    ensures FileLines(Some(FileText(lines))) == lines
  {
    LimitAtTheEnd([], lines);
    UnboundedIsGlued([], lines);
    if lines == [] {
      assert Scanned("\n", "") == [""];
      assert AllClean([""]) == [""];
      assert [""][..0] == [];
    } else {
      ScanWritten(lines);
      AllCleanKeeps(lines);
    }
  }

  lemma {:induction false} AppendedIsClean(lines: seq<string>, more: seq<string>)
    requires CleanLines(lines) && CleanLines(more)
    ensures CleanLines(Appended(lines, more))
    decreases |more|
  {
    if more != [] {
      AppendedIsClean(lines, more[..|more| - 1]);
    }
  }

  /** Whatever is in the file, what is read from it is a clean and well-formed history. */
  lemma FileLinesAreWellFormed(file: Option<string>)
    ensures WellFormed(FileLines(file)) && CleanLines(FileLines(file))
  {
    if file.Some? {
      var cleaned := AllClean(Scanned(file.value, ""));
      forall i | 0 <= i < |cleaned| ensures IsClean(cleaned[i]) {
        CleanIsClean(Scanned(file.value, "")[i]);
      }
      AppendedIsWellFormed([], cleaned);
      AppendedIsClean([], cleaned);
    }
  }

  // ---------- A session ----------

  class SharedFile {
    var text: Option<string>
    constructor (text: Option<string>)
      ensures this.text == text
    {
      this.text := text;
    }
  }

  class History {
    var lines: seq<string>
    var pending: seq<string>

    /** Without a path the history lives in memory only. */
    const file: Option<SharedFile>

    constructor (file: Option<SharedFile>)
      ensures this.file == file && pending == []
      ensures lines == if file.Some? then FileLines(file.value.text) else []
    {
      this.file := file;
      lines, pending := if file.Some? then FileLines(file.value.text) else [], [];
    }

    /** Append. */
    method Append(raw: string) returns (ok: bool)
      modifies this, if file.Some? then {file.value} else {}
      ensures var line := Clean(raw);
        if line == "" then
          && ok && lines == old(lines) && pending == old(pending)
          && (file.Some? ==> file.value.text == old(file.value.text))
        else if file.None? then ok && lines == AppendHistoryLine(old(lines), line) && pending == old(pending)
        else
          || (!ok && lines == AppendHistoryLine(old(lines), line) && pending == AppendHistoryLine(old(pending), line)
              && file.value.text == old(file.value.text))
          || (pending == [] && file.value.text == Some(FileText(lines))
              && lines == Appended(FileLines(old(file.value.text)), AppendHistoryLine(old(pending), line)))
    {
      var line := Clean(raw);
      if line == "" {
        return true;
      }
      if file.None? {
        lines := AppendHistoryLine(lines, line);
        return true;
      }
      ok := AppendTo(file.value, line);
    }

    /**
     The locked part of Append. The write may fail at any point; then the line stays pending. An error after the
     replacement, such as a failing unlock, does not bring committed lines back.
     */
    method AppendTo(file: SharedFile, line: string) returns (ok: bool)
      modifies this, file
      ensures
          || (!ok && lines == AppendHistoryLine(old(lines), line) && pending == AppendHistoryLine(old(pending), line)
              && file.text == old(file.text))
          || (pending == [] && file.text == Some(FileText(lines))
              && lines == Appended(FileLines(old(file.text)), AppendHistoryLine(old(pending), line)))
    {
      lines := AppendHistoryLine(lines, line);
      pending := AppendHistoryLine(pending, line);
      var locks: bool, readable: bool, writable: bool, unlocks: bool := *, *, *, *;
      if !locks || !readable {
        return false;
      }
      var all := FileLines(file.text);
      var i := 0;
      assert pending[..0] == [];
      while i < |pending|
        invariant 0 <= i <= |pending| && all == Appended(FileLines(file.text), pending[..i])
      {
        assert pending[..i + 1][..i] == pending[..i];
        all := AppendHistoryLine(all, pending[i]);
        i := i + 1;
      }
      assert pending[..i] == pending;
      if !writable {
        return false;
      }
      file.text := Some(FileText(all));
      lines := all;
      pending := [];
      return unlocks;
    }
  }

  // ---------- Many sessions ----------

  /** `since` are the lines entered since the last commit, `entered` all lines ever entered. */
  datatype Session = Session(lines: seq<string>, pending: seq<string>, since: seq<string>, entered: seq<string>)

  datatype Commit = Commit(session: nat, lines: seq<string>)

  datatype Sys = Sys(sessions: seq<Session>, file: Option<string>, log: seq<Commit>)

  datatype Act = Enter(session: nat, raw: string) | Fail(session: nat) | Write(session: nat)

  predicate Enabled(s: Sys, a: Act) {
    a.session < |s.sessions|
  }

  function Entering(x: Session, line: string): Session {
    if line == "" then x
    else
      Session(
        AppendHistoryLine(x.lines, line), AppendHistoryLine(x.pending, line), x.since + [line], x.entered + [line])
  }

  /** Under the file lock a session reads, appends what is pending, and replaces the file; or nothing happens to it. */
  function After(s: Sys, a: Act): Sys
    requires Enabled(s, a)
  {
    var x := s.sessions[a.session];
    match a
    case Enter(i, raw) => s.(sessions := s.sessions[i := Entering(x, Clean(raw))])
    case Fail(_) => s
    case Write(i) =>
      var lines := Appended(FileLines(s.file), x.pending);
      Sys(s.sessions[i := Session(lines, [], [], x.entered)], Some(FileText(lines)), s.log + [Commit(i, x.since)])
  }

  predicate Init(s: Sys) {
    s.log == [] && forall i :: 0 <= i < |s.sessions| ==>
      s.sessions[i] == Session(s.sessions[i].lines, [], [], [])
  }

  predicate Run(states: seq<Sys>, acts: seq<Act>) {
    && |states| == |acts| + 1
    && Init(states[0])
    && forall i {:trigger acts[i]} :: 0 <= i < |acts| ==>
         Enabled(states[i], acts[i]) && states[i + 1] == After(states[i], acts[i])
  }

  /** All committed lines, in the order in which the lock was held. */
  function Committed(log: seq<Commit>): seq<string> {
    if log == [] then [] else Committed(log[..|log| - 1]) + log[|log| - 1].lines
  }

  function CommittedBy(log: seq<Commit>, i: nat): seq<string> {
    if log == [] then []
    else
      var n := |log| - 1;
      CommittedBy(log[..n], i) + if log[n].session == i then log[n].lines else []
  }

  predicate SessionOk(s: Sys, i: nat)
    requires i < |s.sessions|
  {
    Remembers(s.sessions[i], CommittedBy(s.log, i))
  }

  predicate Inv(file0: Option<string>, s: Sys) {
    && FileLines(s.file) == Appended(FileLines(file0), Committed(s.log))
    && (if s.log == [] then s.file == file0 else s.file == Some(FileText(FileLines(s.file))))
    && forall i :: 0 <= i < |s.sessions| ==> SessionOk(s, i)
  }

  lemma EnterKeeps(file0: Option<string>, s: Sys, i: nat, raw: string)
    requires Inv(file0, s) && i < |s.sessions|
    ensures Inv(file0, After(s, Enter(i, raw)))
  {
    var s' := After(s, Enter(i, raw));
    forall k | 0 <= k < |s'.sessions| ensures SessionOk(s', k) {
      assert SessionOk(s, k);
      EnterKeepsSession(s, i, raw, k);
    }
  }

  lemma EnterKeepsSession(s: Sys, i: nat, raw: string, k: nat)
    requires i < |s.sessions| && k < |s.sessions| && SessionOk(s, k)
    ensures SessionOk(After(s, Enter(i, raw)), k)
  {
    if k == i {
      CleanIsClean(raw);
      EnteringKeeps(s.sessions[i], CommittedBy(s.log, i), Clean(raw));
    }
  }

  /** What a session remembers of the lines it has entered and `committed`. */
  predicate Remembers(x: Session, committed: seq<string>) {
    x.pending == Appended([], x.since) && CleanLines(x.since) && x.entered == committed + x.since
  }

  lemma EnteringKeeps(x: Session, committed: seq<string>, line: string)
    requires Remembers(x, committed) && IsClean(line)
    ensures Remembers(Entering(x, line), committed)
  {
    if line != "" {
      AppendedOneMore([], x.since, line);
      CleanOneMore(x.since, line);
      Assoc(committed, x.since, [line]);
    }
  }

  lemma AppendedOneMore(lines: seq<string>, more: seq<string>, line: string)
    ensures Appended(lines, more + [line]) == AppendHistoryLine(Appended(lines, more), line)
  {
    assert (more + [line])[..|more|] == more;
  }

  lemma CleanOneMore(lines: seq<string>, line: string)
    requires CleanLines(lines) && IsClean(line)
    ensures CleanLines(lines + [line])
  {
  }

  /** Appending the pending lines of a session is appending all it has entered since its last commit. */
  lemma WriteIsAppend(file: Option<string>, since: seq<string>)
    requires CleanLines(since)
    ensures var lines := Appended(FileLines(file), Appended([], since));
      && lines == Appended(FileLines(file), since)
      && FileLines(Some(FileText(lines))) == lines
  {
    var before := FileLines(file);
    FileLinesAreWellFormed(file);
    GatheredFirst(before, since);
    AppendedIsWellFormed(before, since);
    AppendedIsClean(before, since);
    ReadsBack(Appended(before, since));
  }

  lemma CommittedOneMore(log: seq<Commit>, c: Commit)
    ensures Committed(log + [c]) == Committed(log) + c.lines
    ensures forall k: nat :: CommittedBy(log + [c], k) == CommittedBy(log, k) + if c.session == k then c.lines else []
  {
    assert (log + [c])[..|log|] == log;
  }

  lemma WriteKeepsFile(file0: Option<string>, s: Sys, i: nat)
    requires Inv(file0, s) && i < |s.sessions|
    ensures var s' := After(s, Write(i));
      && FileLines(s'.file) == Appended(FileLines(file0), Committed(s'.log))
      && s'.file == Some(FileText(FileLines(s'.file)))
  {
    var since := s.sessions[i].since;
    assert SessionOk(s, i);
    WriteIsAppend(s.file, since);
    CommittedOneMore(s.log, Commit(i, since));
    AppendedTwice(FileLines(file0), Committed(s.log), since);
  }

  lemma WriteKeeps(file0: Option<string>, s: Sys, i: nat)
    requires Inv(file0, s) && i < |s.sessions|
    ensures Inv(file0, After(s, Write(i)))
  {
    var s' := After(s, Write(i));
    WriteKeepsFile(file0, s, i);
    forall k | 0 <= k < |s'.sessions| ensures SessionOk(s', k) {
      assert SessionOk(s, k);
      WriteKeepsSession(s, i, k);
    }
  }

  lemma WriteKeepsSession(s: Sys, i: nat, k: nat)
    requires i < |s.sessions| && k < |s.sessions| && SessionOk(s, k)
    ensures SessionOk(After(s, Write(i)), k)
  {
    var x, c := s.sessions[i], Commit(i, s.sessions[i].since);
    var s' := After(s, Write(i));
    CommittedOneMore(s.log, c);
    assert s'.log == s.log + [c];
    if k == i {
      assert s'.sessions[k].since == [] && s'.sessions[k].pending == [] && s'.sessions[k].entered == x.entered;
      assert CommittedBy(s'.log, k) == x.entered;
    } else {
      assert s'.sessions[k] == s.sessions[k];
    }
  }

  lemma {:induction false} InvAt(states: seq<Sys>, acts: seq<Act>, n: nat)
    requires Run(states, acts) && n < |states|
    ensures Inv(states[0].file, states[n])
  {
    if n == 0 {
      assert Committed(states[0].log) == [];
    } else {
      InvAt(states, acts, n - 1);
      match acts[n - 1]
      case Enter(i, raw) => EnterKeeps(states[0].file, states[n - 1], i, raw);
      case Write(i) => WriteKeeps(states[0].file, states[n - 1], i);
      case Fail(_) =>
    }
  }

  /**
   However the sessions interleave and whichever writes fail, the file holds exactly the fold of all committed lines in
   lock order; it is bounded, without adjacent repetitions, and reads back to itself.
   */
  lemma FileIsFoldOfCommits(states: seq<Sys>, acts: seq<Act>)
    requires Run(states, acts)
    ensures var s := states[|acts|];
      && FileLines(s.file) == Appended(FileLines(states[0].file), Committed(s.log))
      && WellFormed(FileLines(s.file))
      && (s.log != [] ==> s.file == Some(FileText(FileLines(s.file))))
  {
    InvAt(states, acts, |acts|);
    FileLinesAreWellFormed(states[|acts|].file);
  }

  /** Every line a session has entered was committed exactly once, in order, or is still pending for its next write. */
  lemma LinesAreCommittedOnce(states: seq<Sys>, acts: seq<Act>, i: nat)
    requires Run(states, acts) && i < |states[|acts|].sessions|
    ensures var s := states[|acts|]; var x := s.sessions[i];
      x.entered == CommittedBy(s.log, i) + x.since && x.pending == Appended([], x.since)
  {
    InvAt(states, acts, |acts|);
    assert SessionOk(states[|acts|], i);
  }
}
