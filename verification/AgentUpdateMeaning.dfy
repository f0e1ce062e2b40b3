/** What the service manager's answer says and what a runner's report is worth. */
module AgentUpdateMeaning {
  import opened Text
  import opened AgentUpdate

  // ---- what an answer says ------------------------------------------------

  /** A line `Key=value` sets the property it names, and no other key sets either. */
  lemma PropertyLine(u: Unit, key: string, value: string)
    requires Token(key) && '=' !in key && SpaceFree(value)
    ensures WithLine(u, key + "=" + value) ==
      if key == "LoadState" then u.(loadState := value)
      else if key == "ActiveState" then u.(activeState := value) else u
  {
    var line := key + "=" + value;
    assert line[|line| - 1] == (if value == "" then '=' else value[|value| - 1]);
    hide SplitOn, JoinWith;
    TrimIdle(line);
    assert line == key + ['='] + value;
    SplitFirst(key, value, '=');
    JoinSplit(value, '=');
    var parts := SplitOn(line, '=');
    assert parts[1..] == SplitOn(value, '=');
  }

  /** A unit as the manager prints it. */
  function Printed(u: Unit): string { "LoadState=" + u.loadState + "\n" + ("ActiveState=" + u.activeState) }

  predicate PlainUnit(u: Unit) { SpaceFree(u.loadState) && SpaceFree(u.activeState) }

  lemma KeysPlain()
    ensures Token("LoadState") && '=' !in "LoadState" && Token("ActiveState") && '=' !in "ActiveState"
  {}

  lemma TwoLines(a: string, b: string)
    ensures ReadUnit([a, b]) == WithLine(WithLine(Unit("", ""), a), b)
  {
    hide WithLine;
    assert [a, b][..1] == [a] && [a][..0] == [];
    assert ReadUnit([]) == Unit("", "");
    assert ReadUnit([a]) == WithLine(Unit("", ""), a);
  }

  lemma PrintedLines(u: Unit)
    requires PlainUnit(u)
    ensures SplitOn(Printed(u), '\n') == ["LoadState=" + u.loadState, "ActiveState=" + u.activeState]
  {
    KeysPlain();
    var first, second := "LoadState=" + u.loadState, "ActiveState=" + u.activeState;
    assert '\n' !in first && '\n' !in second;
    hide SplitOn;
    SplitFirst(first, second, '\n');
    SplitWhole(second, '\n');
    assert Printed(u) == first + ['\n'] + second;
  }

  lemma PrintedReads(u: Unit)
    requires PlainUnit(u)
    ensures ReadUnit(SplitOn(Printed(u), '\n')) == u
  {
    KeysPlain();
    PrintedLines(u);
    PropertyLine(Unit("", ""), "LoadState", u.loadState);
    PropertyLine(Unit(u.loadState, ""), "ActiveState", u.activeState);
    hide SplitOn, WithLine, ReadUnit, Printed;
    assert "LoadState=" + u.loadState == "LoadState" + "=" + u.loadState;
    assert "ActiveState=" + u.activeState == "ActiveState" + "=" + u.activeState;
    TwoLines("LoadState=" + u.loadState, "ActiveState=" + u.activeState);
  }

  /** No empty line inside, and no newline at the end. */
  predicate OneParagraph(s: string) {
    (s != "" ==> s[|s| - 1] != '\n') && forall i :: 0 <= i < |s| - 1 ==> s[i] != '\n' || s[i + 1] != '\n'
  }

  lemma {:induction false} ParagraphFirst(first: string, rest: string)
    requires OneParagraph(first)
    ensures Paragraphs(first + "\n\n" + rest) == [first] + Paragraphs(rest)
    decreases |first|
  {
    var s := first + "\n\n" + rest;
    if first == "" {
      assert s[2..] == rest;
    } else {
      assert s[1..] == first[1..] + "\n\n" + rest;
      ParagraphFirst(first[1..], rest);
      assert [first[0]] + first[1..] == first;
    }
  }

  lemma {:induction false} ParagraphWhole(s: string)
    requires OneParagraph(s)
    ensures Paragraphs(s) == [s]
  {
    if |s| >= 2 {
      ParagraphWhole(s[1..]);
      assert [s[0]] + s[1..] == s;
    }
  }

  lemma PrintedParagraph(u: Unit)
    requires PlainUnit(u)
    ensures var s := Printed(u); OneParagraph(s) && s != "" && !IsSpace(s[0]) && !IsSpace(s[|s| - 1])
  {
    var first, second := "LoadState=" + u.loadState, "ActiveState=" + u.activeState;
    KeysPlain();
    assert SpaceFree(first) && SpaceFree(second);
    assert Printed(u) == first + "\n" + second;
    hide SpaceFree, IsSpace;
    assert second[0] == 'A' && first[0] == 'L';
  }

  lemma TrimNewline(s: string)
    requires s != "" && !IsSpace(s[0]) && !IsSpace(s[|s| - 1])
    ensures TrimSpace(s + "\n") == s
  {
    TrimIdle(s);
    var line := s + "\n";
    assert line[..|s|] == s && line[0..] == line && s[0..] == s;
  }

  lemma TwoParagraphs(a: string, b: string)
    requires OneParagraph(a) && OneParagraph(b) && a != "" && b != "" && !IsSpace(a[0]) && !IsSpace(b[|b| - 1])
    ensures Paragraphs(TrimSpace(a + "\n\n" + b + "\n")) == [a, b]
  {
    hide OneParagraph, Paragraphs, TrimSpace, IsSpace;
    var body := a + "\n\n" + b;
    assert body[0] == a[0] && body[|body| - 1] == b[|b| - 1];
    TrimNewline(body);
    ParagraphFirst(a, b);
    ParagraphWhole(b);
  }

  /** The manager's printed answer about two units is read back as those units, so that the verdict is about them. */
  lemma AnswerReads(first: Unit, second: Unit)
    requires PlainUnit(first) && PlainUnit(second)
    ensures UnitsOf(Printed(first) + "\n\n" + Printed(second) + "\n") == Some((first, second))
  {
    PrintedParagraph(first);
    PrintedParagraph(second);
    hide Printed, OneParagraph, Paragraphs, SplitOn, TrimSpace, ReadUnit, IsSpace, PlainUnit;
    TwoParagraphs(Printed(first), Printed(second));
    PrintedReads(first);
    PrintedReads(second);
  }

  // ---- what the runner reports --------------------------------------------

  /** What the runner of an operation came to, from the step that decided it. */
  ghost predicate Finishes(states: seq<State>, steps: seq<Step>, j: nat, id: Id, ok: bool) {
    j < |steps| && j < |states| && steps[j] == Install(ok) && states[j].unit.Alive? && states[j].unit.id == id
  }

  lemma {:induction false} FinishedFrom(states: seq<State>, steps: seq<Step>, n: nat) returns (j: nat)
    requires Run(states, steps) && n <= |steps| && states[n].unit.Alive? && states[n].unit.phase.Finished?
    ensures j < n && Finishes(states, steps, j, states[n].unit.id, states[n].unit.phase.ok)
  {
    RunStep(states, steps, n - 1);
    hide Run;
    if steps[n - 1].Install? {
      j := n - 1;
    } else {
      j := FinishedFrom(states, steps, n - 1);
    }
  }

  /** In every run an operation is recorded as completed only after its own installer succeeded. */
  lemma {:induction false} CompletedOnlyAfterSuccess(states: seq<State>, steps: seq<Step>, n: nat, id: Id)
    requires Run(states, steps) && n <= |steps| && id in states[n].ops && states[n].ops[id] == Completed
    ensures exists j: nat :: j < n && Finishes(states, steps, j, id, true)
  {
    if n > 0 {
      RunStep(states, steps, n - 1);
      var s := states[n - 1];
      if id in s.ops && s.ops[id] == Completed {
        hide Run, Finishes;
        CompletedOnlyAfterSuccess(states, steps, n - 1, id);
        var j: nat :| j < n - 1 && Finishes(states, steps, j, id, true);
        assert j < n;
      } else {
        assert steps[n - 1] == ReportResult && s.unit.id == id && s.unit.phase == Finished(true);
        var j := FinishedFrom(states, steps, n - 1);
        hide Run;
      }
    }
  }

  /** What the runner reports is what its installer came to, and nothing else of the state changes by it. */
  lemma RunnerReports(states: seq<State>, steps: seq<Step>, n: nat) returns (j: nat)
    requires Run(states, steps) && n < |steps| && steps[n] == ReportResult
    ensures j < n && states[n].unit.Alive?
    ensures var id := states[n].unit.id;
      && (Finishes(states, steps, j, id, true) || Finishes(states, steps, j, id, false))
      && states[n + 1].ops == states[n].ops[id := if Finishes(states, steps, j, id, true) then Completed else Failed]
      && states[n + 1].current == states[n].current
  {
    RunStep(states, steps, n);
    j := FinishedFrom(states, steps, n);
    hide Run;
  }
}
