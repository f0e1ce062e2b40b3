/** The self-update lifecycle: the agent and a detached runner share one status file per operation and a marker that
    names the current one. Every step below is one file write or one question to the service manager. */
module AgentUpdate {
  import opened Text

  datatype Status = Scheduled | Running | Completed | Failed {
    predicate Open() { Scheduled? || Running? }
  }

  // ---- the service manager's answer ---------------------------------------

  /** The two properties of a unit that are asked for; absent ones read as empty. */
  datatype Unit = Unit(loadState: string, activeState: string)

  predicate Busy(u: Unit) {
    u.loadState != "" && u.activeState in {"active", "activating", "reloading", "deactivating"}
  }

  predicate Ended(u: Unit) { u.loadState != "" && u.activeState in {"inactive", "failed"} }

  /** A line `Key=value` read into the properties gathered so far. */
  function WithLine(u: Unit, line: string): Unit {
    var parts := SplitOn(TrimSpace(line), '=');
    if |parts| < 2 then u
    else
      var value := JoinWith(parts[1..], '=');
      if parts[0] == "LoadState" then u.(loadState := value)
      else if parts[0] == "ActiveState" then u.(activeState := value)
      else u
  }

  function ReadUnit(lines: seq<string>): Unit {
    if lines == [] then Unit("", "") else WithLine(ReadUnit(lines[..|lines| - 1]), lines[|lines| - 1])
  }

  method ReadBlock(block: string) returns (u: Unit)
    ensures u == ReadUnit(SplitOn(block, '\n'))
  {
    hide WithLine, SplitOn;
    var lines := SplitOn(block, '\n');
    u := Unit("", "");
    for n := 0 to |lines|
      invariant u == ReadUnit(lines[..n])
    {
      assert lines[..n + 1][..n] == lines[..n];
      u := WithLine(u, lines[n]);
    }
    assert lines[..|lines|] == lines;
  }

  /** `strings.Split` on an empty line, that is, on two newlines in a row. */
  function Paragraphs(s: string): (parts: seq<string>)
    ensures |parts| > 0
  {
    if |s| < 2 then [s]
    else if s[0] == '\n' && s[1] == '\n' then [""] + Paragraphs(s[2..])
    else
      var rest := Paragraphs(s[1..]);
      [[s[0]] + rest[0]] + rest[1..]
  }

  /** The two units a listing describes; `None` when it is not about two. */
  function UnitsOf(output: string): Option<(Unit, Unit)> {
    var blocks := Paragraphs(TrimSpace(output));
    if |blocks| != 2 then None
    else Some((ReadUnit(SplitOn(blocks[0], '\n')), ReadUnit(SplitOn(blocks[1], '\n'))))
  }

  /** `detachedAgentLifecycleState`: conclusive and inactive exactly for two ended units, conclusive and active exactly
      when the first unit that has not ended is busy. */
  method DetachedState(output: string) returns (active: bool, conclusive: bool)
    ensures conclusive && !active <==>
      var units := UnitsOf(output);
      units.Some? && Ended(units.value.0) && Ended(units.value.1)
    ensures conclusive && active <==>
      var units := UnitsOf(output);
      units.Some? && (Busy(units.value.0) || (Ended(units.value.0) && Busy(units.value.1)))
    ensures active ==> conclusive
  {
    hide ReadUnit, SplitOn, Paragraphs, TrimSpace;
    var blocks := Paragraphs(TrimSpace(output));
    if |blocks| != 2 { return false, false; }
    for n := 0 to 2
      invariant forall i :: 0 <= i < n ==> Ended(ReadUnit(SplitOn(blocks[i], '\n')))
    {
      var u := ReadBlock(blocks[n]);
      if u.loadState == "" { return false, false; }
      if u.activeState in {"active", "activating", "reloading", "deactivating"} { return true, true; }
      if u.activeState !in {"inactive", "failed"} { return false, false; }
    }
    return false, true;
  }

  // ---- the shared state ---------------------------------------------------

  type Id = string

  /** How far the detached unit of an operation has come. */
  datatype Phase = Timer | Launched | Working | Finished(ok: bool) | Reported

  datatype Detached = NoUnit | Alive(id: Id, phase: Phase)

  /** What the agent is in the middle of, under its lock. */
  datatype Task =
    | Idle
    | Cleared                  // found no open operation
    | Created(id: Id)          // wrote the files of a new one
    | Marked(id: Id)           // made it the current one
    | Staged(id: Id)           // ready to be scheduled
    | Unscheduled(id: Id)      // scheduling failed, not recorded yet
    | Asking(id: Id)           // Status loaded an open operation
    | SawEnded(id: Id)         // and was told that both units have ended

  datatype State = State(current: Option<Id>, ops: map<Id, Status>, unit: Detached, task: Task)

  /** The status `loadOperation` shows: an operation without a readable status counts as failed. */
  function Shown(s: State, id: Id): Status { if id in s.ops then s.ops[id] else Failed }

  predicate Blocked(s: State) { s.current.Some? && Shown(s, s.current.value).Open() }

  datatype Step =
    | Begin | Create(id: Id) | Mark | Stage(ok: bool, recorded: bool) | Schedule(ok: bool)
    | Load | Ask(ended: bool) | Record(written: bool) | Restart
    | Launch | ReportRunning | Install(ok: bool) | ReportResult | End

  /** Scheduling succeeds only while no unit of the fixed name exists; it is reported as ended only when it does not. */
  predicate Enabled(s: State, e: Step) {
    match e
    case Begin => s.task.Idle? && !Blocked(s)
    case Create(id) => s.task.Cleared? && id !in s.ops
    case Mark => s.task.Created?
    case Stage(_, _) => s.task.Marked?
    case Schedule(ok) => s.task.Staged? && (ok ==> s.unit.NoUnit?)
    case Load => s.task.Idle? && Blocked(s)
    case Ask(ended) => s.task.Asking? && (ended ==> s.unit.NoUnit?)
    case Record(_) => s.task.Unscheduled? || s.task.SawEnded?
    case Restart => true
    case Launch => s.unit.Alive? && s.unit.phase.Timer?
    case ReportRunning => s.unit.Alive? && s.unit.phase.Launched?
    case Install(_) => s.unit.Alive? && s.unit.phase.Working?
    case ReportResult => s.unit.Alive? && s.unit.phase.Finished?
    case End => s.unit.Alive?
  }

  function Next(s: State, e: Step): State
    requires Enabled(s, e)
  {
    match e
    case Begin => s.(task := Cleared)
    case Create(id) => s.(ops := s.ops[id := Scheduled], task := Created(id))
    case Mark => s.(current := Some(s.task.id), task := Marked(s.task.id))
    case Stage(ok, recorded) =>
      if ok then s.(task := Staged(s.task.id))
      else s.(ops := if recorded then s.ops[s.task.id := Failed] else s.ops, task := Idle)
    case Schedule(ok) =>
      if ok then s.(unit := Alive(s.task.id, Timer), task := Idle) else s.(task := Unscheduled(s.task.id))
    case Load => s.(task := Asking(s.current.value))
    case Ask(ended) => s.(task := if ended then SawEnded(s.task.id) else Idle)
    case Record(written) => s.(ops := if written then s.ops[s.task.id := Failed] else s.ops, task := Idle)
    case Restart => s.(task := Idle)
    case Launch => s.(unit := s.unit.(phase := Launched))
    case ReportRunning => s.(ops := s.ops[s.unit.id := Running], unit := s.unit.(phase := Working))
    case Install(ok) => s.(unit := s.unit.(phase := Finished(ok)))
    case ReportResult =>
      s.(ops := s.ops[s.unit.id := if s.unit.phase.ok then Completed else Failed], unit := s.unit.(phase := Reported))
    case End => s.(unit := NoUnit)
  }

  function Initial(): State { State(None, map[], NoUnit, Idle) }

  // ---- the agent's calls, when nothing else happens in between ------------

  class AgentUpdateController {
    var current: Option<Id>
    var ops: map<Id, Status>
    var unit: Detached

    constructor ()
      ensures View() == Initial()
    {
      current, ops, unit := None, map[], NoUnit;
    }

    function View(): State
      reads this
    {
      State(current, ops, unit, Idle)
    }

    method LoadOperation() returns (open: bool)
      ensures open == Blocked(View())
    {
      if current.None? { return false; }
      if current.value !in ops { return false; }
      var status := ops[current.value];
      return status == Scheduled || status == Running;
    }

    /** `Status`: reconciles an open operation with what the service manager says. */
    method Reconcile(answered: bool, written: bool) returns (open: bool)
      modifies this`ops
      ensures var before := old(View());
        if Blocked(before) && answered && before.unit.NoUnit? then
          !open && View() == Next(Next(Next(before, Load), Ask(true)), Record(written))
        else
          View() == before && open == Blocked(before)
    {
      open := LoadOperation();
      if !open || !answered || unit.Alive? { return; }
      if written { ops := ops[current.value := Failed]; }
      open := false;
    }

    /** `Upgrade` and `Rollback` up to the scheduling call; refuses while an operation is open. */
    method Operate(id: Id, staged: bool, recorded: bool, scheduled: bool) returns (ok: bool)
      requires id !in ops
      modifies this
      ensures var before := old(View());
        if Blocked(before) then !ok && View() == before
        else
          var marked := Next(Next(Next(before, Begin), Create(id)), Mark);
          if !staged then !ok && View() == Next(marked, Stage(false, recorded))
          else if scheduled && before.unit.NoUnit? then ok &&
              View() == Next(Next(marked, Stage(true, false)), Schedule(true))
          else !ok && View() == Next(Next(Next(marked, Stage(true, false)), Schedule(false)), Record(recorded))
    {
      var open := LoadOperation();
      if open { return false; }
      ops := ops[id := Scheduled];
      current := Some(id);
      if !staged {
        if recorded { ops := ops[id := Failed]; }
        return false;
      }
      if scheduled && unit.NoUnit? {
        unit := Alive(id, Timer);
        return true;
      }
      if recorded { ops := ops[id := Failed]; }
      return false;
    }
  }

  // ---- what every run keeps -----------------------------------------------

  /** The runner of an operation will still write its status. */
  predicate Pending(d: Detached) { d.Alive? && !d.phase.Reported? }

  predicate Sound(s: State) {
    && (Pending(s.unit) ==> s.unit.id in s.ops && s.ops[s.unit.id].Open() && s.current == Some(s.unit.id))
    && (s.unit.Alive? ==> s.unit.id in s.ops)
    && (s.task.Cleared? || s.task.Created? ==> !Blocked(s) && !Pending(s.unit))
    && (s.task.Created? ==> s.task.id in s.ops && s.ops[s.task.id].Open() && s.current != Some(s.task.id))
    && (s.task.Created? ==> s.unit.Alive? ==> s.unit.id != s.task.id)
    && (s.task.Marked? || s.task.Staged? || s.task.Unscheduled? ==>
          s.current == Some(s.task.id) && s.task.id in s.ops && s.ops[s.task.id].Open() && !Pending(s.unit)
          && (s.unit.Alive? ==> s.unit.id != s.task.id))
    && (s.task.Asking? || s.task.SawEnded? ==> s.current == Some(s.task.id) && s.task.id in s.ops)
    && (s.task.SawEnded? ==> s.unit.NoUnit?)
    && (s.current.Some? ==> s.current.value in s.ops)
  }

  lemma SoundStep(s: State, e: Step)
    requires Sound(s) && Enabled(s, e)
    ensures Sound(Next(s, e))
  {
    match e {
      case Begin =>
      case Create(id) =>
      case Mark =>
      case Stage(_, _) =>
      case Schedule(_) =>
      case Load =>
      case Ask(_) =>
      case Record(_) =>
      case Restart =>
      case Launch =>
      case ReportRunning =>
      case Install(_) =>
      case ReportResult =>
      case End =>
    }
  }

  ghost predicate Path(states: seq<State>, steps: seq<Step>) {
    && |states| == |steps| + 1
    && forall i :: 0 <= i < |steps| ==> Enabled(states[i], steps[i]) && states[i + 1] == Next(states[i], steps[i])
  }

  ghost predicate Run(states: seq<State>, steps: seq<Step>) { Path(states, steps) && states[0] == Initial() }

  lemma {:induction false} RunSound(states: seq<State>, steps: seq<Step>, n: nat)
    requires Run(states, steps) && n <= |steps|
    ensures Sound(states[n])
  {
    hide Sound, Enabled, Next;
    if n == 0 {
      assert Sound(Initial()) by { SoundInitially(); }
    } else {
      RunSound(states, steps, n - 1);
      SoundStep(states[n - 1], steps[n - 1]);
    }
  }

  lemma SoundInitially()
    ensures Sound(Initial())
  {}

  /** In every run of agent calls, restarts, runner steps and killed units: the marker leaves an operation only when its
      recorded status is closed and its runner will write nothing more, and whenever a runner is going to write, its
      operation is the current one and recorded as open. */
  lemma MarkerMovesOnlyWhenClosed(states: seq<State>, steps: seq<Step>, n: nat)
    requires Run(states, steps) && n < |steps|
    ensures states[n].current.Some? && states[n + 1].current != states[n].current ==>
      !Shown(states[n], states[n].current.value).Open() && !Pending(states[n].unit)
    ensures Pending(states[n].unit) ==>
        states[n].current == Some(states[n].unit.id) && Shown(states[n], states[n].unit.id).Open()
  {
    RunSound(states, steps, n);
    hide Run;
    assert states[n + 1] == Next(states[n], steps[n]) by { RunStep(states, steps, n); }
    assert Enabled(states[n], steps[n]) by { RunStep(states, steps, n); }
  }

  lemma RunStep(states: seq<State>, steps: seq<Step>, n: nat)
    requires Run(states, steps) && n < |steps|
    ensures Enabled(states[n], steps[n]) && states[n + 1] == Next(states[n], steps[n])
  {}

  /** What the agent records as a failure has no unit left that would contradict it later: neither after the manager
      reported both units ended, nor after a failed scheduling. */
  lemma FailureIsFinal(states: seq<State>, steps: seq<Step>, n: nat)
    requires Run(states, steps) && n < |steps| && steps[n] == Record(true)
    ensures var id := states[n].task.id;
      && states[n + 1].ops[id] == Failed && states[n + 1].current == Some(id)
      && (states[n].task.SawEnded? ==> states[n].unit.NoUnit?)
      && !(states[n + 1].unit.Alive? && states[n + 1].unit.id == id)
  {
    RunSound(states, steps, n);
    hide Run;
    RunStep(states, steps, n);
  }

  lemma {:induction false} ClosedStaysClosed(states: seq<State>, steps: seq<Step>, m: nat, n: nat, id: Id)
    requires Run(states, steps) && m <= n <= |steps| && id in states[m].ops && !states[m].ops[id].Open()
    ensures id in states[n].ops && !states[n].ops[id].Open()
    decreases n - m
  {
    if m < n {
      RunSound(states, steps, m);
      RunStep(states, steps, m);
      hide Run, Sound;
      assert id in states[m + 1].ops && !states[m + 1].ops[id].Open() by { ClosedStep(states[m], steps[m], id); }
      ClosedStaysClosed(states, steps, m + 1, n, id);
    }
  }

  lemma ClosedStep(s: State, e: Step, id: Id)
    requires Sound(s) && Enabled(s, e) && id in s.ops && !s.ops[id].Open()
    ensures id in Next(s, e).ops && !Next(s, e).ops[id].Open()
  {}

  /** A run up to an installer that has succeeded and not reported it yet. */
  lemma InstalledRun(id: Id) returns (s: seq<State>, steps: seq<Step>)
    ensures steps == [Begin, Create(id), Mark, Stage(true, false), Schedule(true), Launch, ReportRunning, Install(true)]
    ensures Run(s, steps) && s[8] == State(Some(id), map[id := Running], Alive(id, Finished(true)), Idle)
  {
    var a, ops := Initial(), map[id := Scheduled];
    var b := State(None, map[], NoUnit, Cleared);
    var c := State(None, ops, NoUnit, Created(id));
    var d := State(Some(id), ops, NoUnit, Marked(id));
    var e := State(Some(id), ops, NoUnit, Staged(id));
    var f := State(Some(id), ops, Alive(id, Timer), Idle);
    var g := State(Some(id), ops, Alive(id, Launched), Idle);
    var h := State(Some(id), map[id := Running], Alive(id, Working), Idle);
    assert ops[id := Running] == map[id := Running];
    s := [a, b, c, d, e, f, g, h, h.(unit := Alive(id, Finished(true)))];
    steps := [Begin, Create(id), Mark, Stage(true, false), Schedule(true), Launch, ReportRunning, Install(true)];
  }

  /** From there Status loads the operation before the runner's last write and asks about the units after it. */
  lemma OvertakenPath(id: Id) returns (s: seq<State>, steps: seq<Step>)
    ensures steps == [Load, ReportResult, End, Ask(true), Record(true)] && Path(s, steps)
    ensures s[0] == State(Some(id), map[id := Running], Alive(id, Finished(true)), Idle)
    ensures s[2].ops == map[id := Completed] && s[5].ops == map[id := Failed]
  {
    var a := State(Some(id), map[id := Running], Alive(id, Finished(true)), Idle);
    var b := a.(task := Asking(id));
    var c := State(Some(id), map[id := Completed], Alive(id, Reported), Asking(id));
    var d := c.(unit := NoUnit);
    var e := d.(task := SawEnded(id));
    assert a.ops[id := Completed] == c.ops && c.ops[id := Failed] == map[id := Failed];
    s := [a, b, c, d, e, State(Some(id), map[id := Failed], NoUnit, Idle)];
    steps := [Load, ReportResult, End, Ask(true), Record(true)];
  }

  lemma PathJoined(a: seq<State>, x: seq<Step>, b: seq<State>, y: seq<Step>)
    requires Path(a, x) && Path(b, y) && a[|x|] == b[0]
    ensures Path(a + b[1..], x + y)
  {
    hide Enabled, Next;
    var s, steps := a + b[1..], x + y;
    forall i | 0 <= i < |steps|
      ensures Enabled(s[i], steps[i]) && s[i + 1] == Next(s[i], steps[i])
    {
      if i >= |x| {
        var j := i - |x|;
        assert steps[i] == y[j] && s[i] == b[j] && s[i + 1] == b[j + 1];
      } else {
        assert steps[i] == x[i] && s[i] == a[i] && s[i + 1] == a[i + 1];
      }
    }
  }

  /** A whole run in which a completed operation is recorded as failed. */
  lemma CompletedBecomesFailed(id: Id) returns (s: seq<State>, steps: seq<Step>)
    ensures steps == [Begin, Create(id), Mark, Stage(true, false), Schedule(true), Launch, ReportRunning] +
                     [Install(true), Load, ReportResult, End, Ask(true), Record(true)]
    ensures Run(s, steps) && s[10].ops == map[id := Completed] && s[13].ops == map[id := Failed]
  {
    var a, x := InstalledRun(id);
    var b, y := OvertakenPath(id);
    hide Enabled, Next, Initial;
    PathJoined(a, x, b, y);
    s, steps := a + b[1..], x + y;
    assert s[10] == b[2] && s[13] == b[5];
  }

  /** A Status call loaded the operation while it was open and has not finished. */
  predicate Overtaken(s: State, id: Id) { (s.task.Asking? || s.task.SawEnded?) && s.task.id == id }

  predicate CompletedAt(s: State, id: Id) { id in s.ops && s.ops[id] == Completed }

  lemma CompletedStep(s: State, e: Step, id: Id)
    requires Sound(s) && Enabled(s, e) && CompletedAt(s, id) && !Overtaken(s, id)
    ensures CompletedAt(Next(s, e), id) && !Overtaken(Next(s, e), id)
  {}

  lemma {:induction false} CompletedPath(states: seq<State>, steps: seq<Step>, n: nat, id: Id)
    requires Path(states, steps) && n <= |steps| && Sound(states[0]) && CompletedAt(states[0], id) &&
        !Overtaken(states[0], id)
    ensures Sound(states[n]) && CompletedAt(states[n], id) && !Overtaken(states[n], id)
  {
    hide Sound, CompletedAt, Overtaken, Enabled, Next;
    if n > 0 {
      CompletedPath(states, steps, n - 1, id);
      SoundStep(states[n - 1], steps[n - 1]);
      CompletedStep(states[n - 1], steps[n - 1], id);
    }
  }

  /** The Status call goes on: the unit ends, the manager says so, and the failure is recorded. */
  lemma OvertakenFails(s: State, id: Id) returns (states: seq<State>, steps: seq<Step>)
    requires Sound(s) && Overtaken(s, id)
    ensures Path(states, steps) && states[0] == s && Shown(states[|steps|], id) == Failed
  {
    if s.task.SawEnded? {
      states, steps := [s, Next(s, Record(true))], [Record(true)];
    } else if s.unit.NoUnit? {
      var a := Next(s, Ask(true));
      states, steps := [s, a, Next(a, Record(true))], [Ask(true), Record(true)];
    } else {
      var a := Next(s, End);
      var b := Next(a, Ask(true));
      states, steps := [s, a, b, Next(b, Record(true))], [End, Ask(true), Record(true)];
    }
  }

  /** Exactly then: in any reachable state an operation recorded as completed can still become a failed one if and only
      if a Status call is under way that loaded it before it was completed. */
  lemma OverwrittenIff(states: seq<State>, steps: seq<Step>, id: Id)
    requires Run(states, steps) && CompletedAt(states[|steps|], id)
    ensures Overtaken(states[|steps|], id) <==>
      exists later: seq<State>, more: seq<Step> ::
        Path(later, more) && later[0] == states[|steps|] && Shown(later[|more|], id) == Failed
  {
    var s := states[|steps|];
    RunSound(states, steps, |steps|);
    hide Sound, Enabled, Next, Overtaken;
    if Overtaken(s, id) {
      var later, more := OvertakenFails(s, id);
    } else {
      forall later: seq<State>, more: seq<Step> | Path(later, more) && later[0] == s
        ensures Shown(later[|more|], id) != Failed
      {
        CompletedPath(later, more, |more|, id);
      }
    }
  }

  /** An open operation whose unit is gone, and no call that would create another. */
  predicate Stuck(s: State, id: Id) {
    && s.current == Some(id) && id in s.ops && s.ops[id].Open() && s.unit.NoUnit?
    && (s.task.Idle? || ((s.task.Asking? || s.task.SawEnded?) && s.task.id == id))
  }

  lemma StuckStep(s: State, e: Step, id: Id)
    requires Stuck(s, id) && Enabled(s, e)
    ensures e != Record(true) ==> Stuck(Next(s, e), id)
    ensures e == Record(true) ==> Next(s, e).current == Some(id) && Next(s, e).ops[id] == Failed && !Blocked(Next(s, e))
  {}

  predicate Recorded(steps: seq<Step>, n: nat) { exists i :: 0 <= i < n && i < |steps| && steps[i] == Record(true) }

  lemma {:induction false} StuckUntilRecorded(states: seq<State>, steps: seq<Step>, n: nat, id: Id)
    requires Path(states, steps) && n <= |steps| && Stuck(states[0], id) && !Recorded(steps, n)
    ensures Stuck(states[n], id)
  {
    hide Stuck, Enabled, Next;
    if n > 0 {
      StuckUntilRecorded(states, steps, n - 1, id);
      StuckStep(states[n - 1], steps[n - 1], id);
    }
  }

  /** In any reachable state in which the unit of an open operation is gone and no call is under way: along every
      continuation the operation stays current, open and in the way of every later one exactly until a Status call
      records its failure, and that recording unblocks. */
  lemma BlockedUntilRecorded(states: seq<State>, steps: seq<Step>, later: seq<State>, more: seq<Step>, n: nat)
    requires Run(states, steps) && Path(later, more) && later[0] == states[|steps|] && n <= |more|
    requires later[0].task.Idle? && later[0].unit.NoUnit? && Blocked(later[0])
    ensures (forall m :: 0 <= m <= n ==> Blocked(later[m]) && later[m].current == later[0].current) <==>
        !Recorded(more, n)
    ensures !Recorded(more, n) ==> !Enabled(later[n], Begin)
  {
    RunSound(states, steps, |steps|);
    var id := later[0].current.value;
    assert Stuck(later[0], id);
    forall m | 0 <= m <= n && !Recorded(more, m) ensures Stuck(later[m], id) {
      StuckUntilRecorded(later, more, m, id);
    }
    if Recorded(more, n) {
      var i := FirstRecorded(more, n);
      StuckStep(later[i], more[i], id);
      assert !Blocked(later[i + 1]);
    } else {
      forall m | 0 <= m <= n ensures !Recorded(more, m) {}
    }
  }

  lemma {:induction false} FirstRecorded(steps: seq<Step>, n: nat) returns (i: nat)
    requires n <= |steps| && Recorded(steps, n)
    ensures i < n && steps[i] == Record(true) && !Recorded(steps, i)
  {
    if Recorded(steps, n - 1) {
      i := FirstRecorded(steps, n - 1);
    } else {
      i := n - 1;
    }
  }

  /** One Status call that gets an answer and can write does so, whatever interrupted the operation. */
  lemma OneStatusUnblocks(states: seq<State>, steps: seq<Step>)
    requires Run(states, steps)
    requires states[|steps|].task.Idle? && states[|steps|].unit.NoUnit? && Blocked(states[|steps|])
    ensures var s := states[|steps|];
      && Enabled(s, Load) && Enabled(Next(s, Load), Ask(true)) && Enabled(Next(Next(s, Load), Ask(true)), Record(true))
      && var done := Next(Next(Next(s, Load), Ask(true)), Record(true));
      && done.current == s.current && Shown(done, done.current.value) == Failed && Enabled(done, Begin)
  {
    RunSound(states, steps, |steps|);
    hide Run;
  }
}
