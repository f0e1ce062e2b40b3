/** The agent and the installer at the same time, write by write. Each step is one durable write, one decision or one
    call, so a run is any interleaving of deliveries, installer runs, rollbacks and stops. */
module ProfileMachine {
  import opened Text
  import opened Profile
  import opened ProfileProofs

  /** What the agent is in the middle of, under its own lock. */
  datatype Agent =
    | Resting
    | Reading(w: Wrapper, seen: File<Wrapper>)  // a delivery that has read the active file
    | Staging(w: Wrapper, writes: seq<Write>)   // decided, these writes still to come
    | Scheduling(w: Wrapper)                    // all written, the installer not called yet
    | Refused(w: Wrapper)                       // the call failed, not recorded yet
    | Watching(seen: File<Wrapper>)             // a heartbeat that has read the active file

  /** `last` is the candidate written last, `due` says that a called installer run has not opened yet, and `told` is
      the last heartbeat report. */
  datatype System = System(store: Store, agent: Agent, installer: Installer, last: Option<Wrapper>, due: bool,
                           told: Option<Report>)

  function AtRest(s: Store): System { System(s, Resting, Closed, None, false, None) }

  datatype Step =
    | Read(w: Wrapper) | Judge | Put | Call(ok: bool) | MarkRefused | Look | Tell | Crash
    | Go | Abandon | Fail | Restore(ok: bool) | Report(ok: bool) | Stop

  predicate CanFail(i: Installer) { i.Copying? || i.Marked? || i.Published? || i.Recorded? }

  predicate Enabled(sys: System, e: Step) {
    match e
    case Read(_) => sys.agent.Resting?
    case Judge => sys.agent.Reading?
    case Put => sys.agent.Staging? && sys.agent.writes != []
    case Call(_) => sys.agent.Scheduling?
    case MarkRefused => sys.agent.Refused?
    case Look => sys.agent.Resting?
    case Tell => sys.agent.Watching?
    case Crash => true
    case Go => !sys.installer.Restoring?
    case Abandon => sys.installer.Copying? && sys.installer.copied == 0
    case Fail => CanFail(sys.installer)
    case Restore(_) => sys.installer.Restoring? && sys.installer.next < 4
    case Report(_) => sys.installer.Restoring? && sys.installer.next >= 4
    case Stop => !sys.installer.Closed?
  }

  function FailedAt(s: Store, revision: int): Store { s.(state := Holds(StateDocument(Failed, revision))) }

  /** The decision of a delivery on the active file it read before and the state file as it is now. */
  function Judged(sys: System): Decision
    requires sys.agent.Reading?
  {
    DecideOn(sys.agent.seen, sys.store.state, sys.agent.w)
  }

  function Next(sys: System, e: Step): System
    requires Enabled(sys, e)
  {
    match e
    case Read(w) => sys.(agent := Reading(w, sys.store.active))
    case Judge =>
      sys.(agent := if Judged(sys) == Stage then Staging(sys.agent.w, WritesOn(sys.agent.seen, sys.agent.w))
          else Resting)
    case Put =>
      var write, rest := sys.agent.writes[0], sys.agent.writes[1..];
      sys.(store := Written(sys.store, write),
           agent := if rest == [] then Scheduling(sys.agent.w) else Staging(sys.agent.w, rest),
           last := if write.Candidate? then Some(write.wrapper) else sys.last)
    case Call(ok) => if ok then sys.(agent := Resting, due := true) else sys.(agent := Refused(sys.agent.w))
    case MarkRefused => sys.(store := FailedAt(sys.store, sys.agent.w.revision), agent := Resting)
    case Look => sys.(agent := Watching(sys.store.active))
    case Tell => sys.(agent := Resting, told := Some(ReportOn(sys.agent.seen, sys.store.state)))
    case Crash => sys.(agent := Resting)
    case Go =>
      var (i, s) := Advance(sys.installer, sys.store);
      sys.(installer := i, store := s, due := sys.due && !sys.installer.Closed?)
    case Abandon => sys.(store := FailedAt(sys.store, sys.installer.c.revision), installer := Closed)
    case Fail => sys.(installer := Restoring(sys.installer.c, sys.installer.snapshot, 0))
    case Restore(ok) =>
      var i := sys.installer;
      sys.(store := if ok then Taken(sys.store, i.snapshot, i.next) else sys.store, installer := i.(next := i.next + 1))
    case Report(ok) =>
      sys.(store := if ok then FailedAt(sys.store, sys.installer.c.revision) else sys.store, installer := Closed)
    case Stop => sys.(installer := Closed)
  }

  /** The steps can be taken one after another. */
  predicate Can(sys: System, steps: seq<Step>)
    decreases |steps|
  {
    steps == [] || (Enabled(sys, steps[0]) && Can(Next(sys, steps[0]), steps[1..]))
  }

  function Follow(sys: System, steps: seq<Step>): System
    requires Can(sys, steps)
    decreases |steps|
  {
    if steps == [] then sys else Follow(Next(sys, steps[0]), steps[1..])
  }

  lemma {:induction false} FollowJoined(sys: System, a: seq<Step>, b: seq<Step>)
    requires Can(sys, a) && Can(Follow(sys, a), b)
    ensures Can(sys, a + b) && Follow(sys, a + b) == Follow(Follow(sys, a), b)
    decreases |a|
  {
    hide Enabled, Next;
    if a == [] {
      assert a + b == b;
    } else {
      assert (a + b)[1..] == a[1..] + b;
      FollowJoined(Next(sys, a[0]), a[1..], b);
    }
  }

  // ---- orderly runs -------------------------------------------------------

  /** No delivery decides to stage, or writes, during an installer run; none decides on an active file that has been
      replaced since it read it; no run opens between a delivery's decision and its last write; and copying aside
      does not break off. A delivery that stages nothing may be read and judged at any time. */
  predicate Orderly(sys: System, e: Step) {
    && (e.Judge? && sys.agent.Reading? && Judged(sys) == Stage ==>
          sys.installer.Closed? && sys.agent.seen == sys.store.active)
    && (e.Put? ==> sys.installer.Closed?)
    && (e.Go? && sys.installer.Closed? ==> !sys.agent.Staging?)
    && (e.Fail? && sys.installer.Copying? ==> sys.installer.copied >= 4)
  }

  predicate AllOrderly(sys: System, steps: seq<Step>)
    requires Can(sys, steps)
    decreases |steps|
  {
    steps == [] || (Orderly(sys, steps[0]) && AllOrderly(Next(sys, steps[0]), steps[1..]))
  }

  /** Nothing in a store is newer than a revision. */
  predicate Within(s: Store, revision: int) {
    && (s.active.Holds? ==> s.active.value.revision <= revision)
    && (s.Pending() ==> s.state.value.revision <= revision)
  }

  function LastWrites(w: Wrapper): seq<Write> { [Candidate(w), State(StateDocument(PendingRestart, w.revision))] }

  predicate AgentOrdered(sys: System) {
    sys.agent.Staging? ==>
      var w, writes := sys.agent.w, sys.agent.writes;
      && sys.installer.Closed? && Within(sys.store, w.revision)
      && ((|writes| == 3 && writes[0].Previous? && writes[1..] == LastWrites(w)) || writes == LastWrites(w)
          || (writes == LastWrites(w)[1..] && sys.store.candidate == Holds(w)))
  }

  predicate InstallerOrdered(sys: System) {
    !sys.installer.Closed? ==>
      var i, s := sys.installer, sys.store;
      && s.candidate == Holds(i.c) && Within(s, i.c.revision)
      && (i.Copying? ==> i.copied <= 4 && (i.copied > 0 ==> i.snapshot.candidate == Holds(i.c)))
      && (i.Marked? || i.Published? || i.Recorded? || i.Restoring? ==> i.snapshot.candidate == Holds(i.c))
      && (!i.Confirmed? ==> Within(i.snapshot, i.c.revision))
      && (i.Copying? && i.copied < 4 ==> !i.snapshot.Pending())
      && (i.Published? || i.Recorded? || i.Confirmed? ==> s.active == Holds(i.c))
      && (i.Confirmed? ==> !s.Pending())
  }

  /** The profile written last is staged or active. */
  predicate LastKept(sys: System) {
    sys.last.Some? ==>
      || sys.store.candidate == Holds(sys.last.value)
      || (sys.store.candidate.Missing? && sys.store.active == Holds(sys.last.value))
  }

  predicate Ordered(sys: System) {
    Sound(sys.store) && AgentOrdered(sys) && InstallerOrdered(sys) && LastKept(sys)
  }

  predicate AgentStep(e: Step) {
    e.Read? || e.Judge? || e.Put? || e.Call? || e.MarkRefused? || e.Look? || e.Tell? || e.Crash?
  }

  lemma OrderedAgentStep(sys: System, e: Step)
    requires Ordered(sys) && Enabled(sys, e) && Orderly(sys, e)
    requires AgentStep(e)
    ensures Ordered(Next(sys, e))
  {}

  lemma OrderedGo(sys: System)
    requires Ordered(sys) && Enabled(sys, Go) && Orderly(sys, Go)
    ensures Ordered(Next(sys, Go))
  {}

  lemma OrderedInstallerStep(sys: System, e: Step)
    requires Ordered(sys) && Enabled(sys, e) && Orderly(sys, e)
    requires e.Abandon? || e.Fail? || e.Restore? || e.Report? || e.Stop?
    ensures Ordered(Next(sys, e))
  {}

  /** From consistent files, after every orderly run, whatever is stopped, fails or is rolled back on the way: a pending
      state has a candidate at least as new as itself and as the active profile, and the profile written last is
      still staged or active. */
  lemma {:induction false} OrderlyRuns(sys: System, steps: seq<Step>)
    requires Ordered(sys) && Can(sys, steps) && AllOrderly(sys, steps)
    ensures Ordered(Follow(sys, steps))
    decreases |steps|
  {
    hide Ordered, Enabled, Next, Orderly;
    if steps != [] {
      var e := steps[0];
      if e.Go? {
        OrderedGo(sys);
      } else if e.Abandon? || e.Fail? || e.Restore? || e.Report? || e.Stop? {
        OrderedInstallerStep(sys, e);
      } else {
        OrderedAgentStep(sys, e);
      }
      OrderlyRuns(Next(sys, e), steps[1..]);
    }
  }

  /** Where such runs start. */
  lemma OrderedAtRest(s: Store)
    requires Sound(s)
    ensures Ordered(AtRest(s))
  {}

  // ---- exactly which steps do damage --------------------------------------

  /** The candidate is at least as new as a revision. */
  predicate Backs(s: Store, revision: int) { s.candidate.Holds? && s.candidate.value.revision >= revision }

  /** Another process got in between: what the step relies on is no longer there, or something newer is. */
  predicate Clash(sys: System, e: Step)
    requires Enabled(sys, e)
  {
    var s := sys.store;
    match e
    case Put =>
      (match sys.agent.writes[0]
       case Previous(_) => false
       case Candidate(w) => !Within(s, w.revision)
       case State(d) => d.phase.PendingRestart? && !Backs(s, d.revision))
    case Go =>
      (match sys.installer
       case Copying(c, _, copied) => copied >= 4 && !Backs(s, c.revision)
       case Marked(c, _) => s.candidate.Holds? && !Backs(s, c.revision)
       case Confirmed(_) => s.Pending()
       case _ => false)
    case Restore(ok) =>
      var kept := sys.installer.snapshot;
      ok &&
      (match sys.installer.next
       case 0 => if kept.candidate.Holds? then !Within(s, kept.candidate.value.revision) else s.Pending()
       case 1 => s.candidate.Holds? && kept.active.Holds? && !Backs(s, kept.active.value.revision)
       case 2 => false
       case _ => kept.Pending() && !Backs(s, kept.state.value.revision))
    case _ => false
  }

  /** In any state of any interleaving, the next step breaks the consistency of the files exactly on a clash. */
  lemma BreaksIffClash(sys: System, e: Step)
    requires Enabled(sys, e) && Sound(sys.store)
    ensures !Sound(Next(sys, e).store) <==> Clash(sys, e)
  {}

  /** The step takes away the last copy of a profile. */
  predicate Loses(sys: System, e: Step, w: Wrapper)
    requires Enabled(sys, e)
  {
    var s := sys.store;
    match e
    case Put =>
      sys.agent.writes[0].Candidate? && sys.agent.writes[0].wrapper != w && s.active != Holds(w)
    case Go =>
      || (sys.installer.Marked? && sys.installer.c != w && s.candidate != Holds(w))
      || (sys.installer.Confirmed? && s.active != Holds(w))
    case Restore(ok) =>
      var kept, next := sys.installer.snapshot, sys.installer.next;
      ok && ((next == 0 && kept.candidate != Holds(w) && s.active != Holds(w))
             || (next == 1 && kept.active != Holds(w) && s.candidate != Holds(w)))
    case _ => false
  }

  /** A profile that is staged or active stays so exactly until such a step. */
  lemma LostIffLoses(sys: System, e: Step, w: Wrapper)
    requires Enabled(sys, e) && Survives(sys.store, w)
    ensures !Survives(Next(sys, e).store, w) <==> Loses(sys, e, w)
  {}

  // ---- whole calls as steps -----------------------------------------------

  function Times(e: Step, k: nat): seq<Step> { if k == 0 then [] else [e] + Times(e, k - 1) }

  lemma {:induction false} GoMany(sys: System, k: nat)
    requires !sys.installer.Restoring?
    ensures Can(sys, Times(Go, k))
    ensures var (i, s) := Installed(sys.installer, sys.store, k);
      && Follow(sys, Times(Go, k)) == sys.(installer := i, store := s, due := Follow(sys, Times(Go, k)).due)
      && (Follow(sys, Times(Go, k)).due ==> sys.due)
    decreases k
  {
    hide Advance;
    if k > 0 {
      var next := Next(sys, Go);
      GoMany(next, k - 1);
      InstalledFront(sys.installer, sys.store, k - 1);
      assert Times(Go, k)[1..] == Times(Go, k - 1);
    }
  }

  /** The writes of a delivery, one after another. */
  lemma {:induction false} PutMany(sys: System, k: nat)
    requires sys.agent.Staging? && k <= |sys.agent.writes|
    ensures Can(sys, Times(Put, k))
    ensures var after := Follow(sys, Times(Put, k));
      var rest := sys.agent.writes[k..];
      && after.store == AllWritten(sys.store, sys.agent.writes[..k]) && after.installer == sys.installer
      && after.agent == (if k > 0 && rest == [] then Scheduling(sys.agent.w) else Staging(sys.agent.w, rest))
    decreases k
  {
    var writes := sys.agent.writes;
    if k > 0 {
      var next := Next(sys, Put);
      assert Times(Put, k)[1..] == Times(Put, k - 1);
      assert writes[..k][1..] == writes[1..][..k - 1] && writes[k..] == writes[1..][k - 1..];
      if k == 1 {
        assert writes[..1][1..] == [] && Times(Put, 0) == [];
      } else {
        PutMany(next, k - 1);
      }
    } else {
      assert writes[0..] == writes;
    }
  }

  /** One delivery that stops where its budget ends. */
  function DeliverySteps(s: Store, w: Wrapper, budget: nat, scheduled: bool): seq<Step> {
    var n := |StagingWrites(s, w)|;
    if Decide(s, w) != Stage then [Read(w), Judge]
    else if budget < n then [Read(w), Judge] + (Times(Put, budget) + [Crash])
    else if scheduled then [Read(w), Judge] + (Times(Put, n) + [Call(true)])
    else [Read(w), Judge] + (Times(Put, n) + [Call(false), if budget == n then Crash else MarkRefused])
  }

  /** The delivery that the store's method performs is one run of the agent's steps. */
  lemma DeliveryIsApplied(sys: System, w: Wrapper, budget: nat, scheduled: bool)
    requires sys.agent.Resting?
    ensures var steps := DeliverySteps(sys.store, w, budget, scheduled);
      && Can(sys, steps) && Follow(sys, steps).agent == Resting && Follow(sys, steps).installer == sys.installer
      && Follow(sys, steps).store == Applied(sys.store, w, budget, scheduled)
  {
    var n := |StagingWrites(sys.store, w)|;
    var begun := Next(Next(sys, Read(w)), Judge);
    assert Can(sys, [Read(w), Judge]) && Follow(sys, [Read(w), Judge]) == begun by {
      assert [Read(w), Judge][1..] == [Judge] && [Judge][1..] == [];
    }
    if Decide(sys.store, w) == Stage {
      var k := if budget < n then budget else n;
      var tail := if budget < n then [Crash] else if scheduled then [Call(true)]
                  else [Call(false), if budget == n then Crash else MarkRefused];
      PutMany(begun, k);
      assert StagingWrites(sys.store, w)[..n] == StagingWrites(sys.store, w);
      var put := Follow(begun, Times(Put, k));
      TailSteps(put, tail);
      hide Next, Enabled;
      FollowJoined(begun, Times(Put, k), tail);
      FollowJoined(sys, [Read(w), Judge], Times(Put, k) + tail);
    }
  }

  lemma TailSteps(sys: System, tail: seq<Step>)
    requires tail == [Crash] || (sys.agent.Scheduling? &&
        tail in {[Call(true)], [Call(false), Crash], [Call(false), MarkRefused]})
    ensures Can(sys, tail)
    ensures var after := Follow(sys, tail);
      && after.agent == Resting && after.installer == sys.installer && after.last == sys.last
      && after.store == if tail == [Call(false), MarkRefused] then FailedAt(sys.store, sys.agent.w.revision)
          else sys.store
  {
    assert tail[1..] == [] || (|tail| == 2 && tail[1..] == [tail[1]] && [tail[1]][1..] == []);
  }

  // ---- what a rollback puts back ------------------------------------------

  lemma RestoreAll(sys: System)
    requires sys.installer.Restoring? && sys.installer.next == 0
    ensures var steps := Times(Restore(true), 4) + [Report(true)];
      && Can(sys, steps)
      && Follow(sys, steps) ==
           sys.(store := FailedAt(sys.installer.snapshot, sys.installer.c.revision), installer := Closed)
  {
    var a := Next(sys, Restore(true));
    var b := Next(a, Restore(true));
    var c := Next(b, Restore(true));
    var d := Next(c, Restore(true));
    assert d.store == sys.installer.snapshot;
    var e := Next(d, Report(true));
    var steps := Times(Restore(true), 4) + [Report(true)];
    assert steps == [Restore(true), Restore(true), Restore(true), Restore(true), Report(true)] by {
      assert Times(Restore(true), 2) == [Restore(true), Restore(true)];
      assert Times(Restore(true), 4) == [Restore(true), Restore(true)] + Times(Restore(true), 2);
    }
    hide Enabled, Next, Times;
    assert Enabled(sys, steps[0]) && Enabled(a, steps[1]) && Enabled(b, steps[2]) && Enabled(c, steps[3]) &&
        Enabled(d, steps[4]);
    assert Can(e, steps[5..]) && Follow(e, steps[5..]) == e;
    assert steps[4..][1..] == steps[5..] && steps[3..][1..] == steps[4..] && steps[2..][1..] == steps[3..];
    assert steps[1..][1..] == steps[2..];
    assert Can(d, steps[4..]) && Follow(d, steps[4..]) == e;
    assert Can(c, steps[3..]) && Follow(c, steps[3..]) == e;
    assert Can(b, steps[2..]) && Follow(b, steps[2..]) == e;
    assert Can(a, steps[1..]) && Follow(a, steps[1..]) == e;
  }

  /** A run that fails after some of its steps and is rolled back in full leaves exactly the files it had copied aside
      by then, with the failure recorded: all four once copying is done, and otherwise none of the later ones. */
  lemma RollbackPutsBack(sys: System, k: nat)
    requires sys.installer.Closed? && sys.store.candidate.Holds? && 1 <= k <= 8
    ensures var steps := Times(Go, k) + ([Fail] + (Times(Restore(true), 4) + [Report(true)]));
      && Can(sys, steps)
      && Follow(sys, steps).store ==
           FailedAt(First(sys.store, if k <= 4 then k - 1 else 4), sys.store.candidate.value.revision)
  {
    var s := sys.store;
    GoMany(sys, k);
    InstalledAt(s, k);
    assert First(s, 4) == s;
    var gone := Follow(sys, Times(Go, k));
    var failed := Next(gone, Fail);
    assert Can(gone, [Fail]) && Follow(gone, [Fail]) == failed by { assert [Fail][1..] == []; }
    RestoreAll(failed);
    hide Enabled, Next, Times, Installed;
    var back := Times(Restore(true), 4) + [Report(true)];
    FollowJoined(gone, [Fail], back);
    FollowJoined(sys, Times(Go, k), [Fail] + back);
  }

  // ---- clashes that happen ------------------------------------------------

  /** A whole successful installer run between a delivery's two last writes leaves a pending state with no candidate. */
  lemma RunBetweenWrites(sys: System, w: Wrapper)
    requires sys.agent.Resting? && sys.installer.Closed? && sys.store.active.Missing? && Decide(sys.store, w) == Stage
    ensures var steps := [Read(w), Judge, Put] + (Times(Go, WHOLE_RUN) + [Put]);
      && Can(sys, steps)
      && var after := Follow(sys, steps).store;
      && after.active == Holds(w) && after.candidate.Missing? && after.Pending() && !Sound(after)
  {
    var read := Next(sys, Read(w));
    var begun := Next(read, Judge);
    var put := Next(begun, Put);
    assert Can(sys, [Read(w), Judge, Put]) && Follow(sys, [Read(w), Judge, Put]) == put by {
      assert [Read(w), Judge, Put][1..] == [Judge, Put] && [Judge, Put][1..] == [Put] && [Put][1..] == [];
    }
    assert put.agent.writes == LastWrites(w)[1..];
    GoMany(put, WHOLE_RUN);
    InstalledAt(put.store, WHOLE_RUN);
    hide Installed;
    var gone := Follow(put, Times(Go, WHOLE_RUN));
    assert Can(gone, [Put]) && Follow(gone, [Put]) == Next(gone, Put) by { assert [Put][1..] == []; }
    hide Enabled, Times, Can, Follow;
    FollowJoined(put, Times(Go, WHOLE_RUN), [Put]);
    FollowJoined(sys, [Read(w), Judge, Put], Times(Go, WHOLE_RUN) + [Put]);
  }

  /** A whole delivery after the installer's mark, then a rollback: its first file puts the older candidate back under
      the newer pending state. */
  lemma RolledBackOver(sys: System, w: Wrapper)
    requires sys.agent.Resting? && sys.installer.Closed? && sys.store.candidate.Holds?
    requires Decide(At(sys.store, 6).1, w) == Stage
    ensures var steps := Times(Go, 6) + (DeliverySteps(At(sys.store, 6).1, w, 3, true) + [Fail, Restore(true)]);
      && Can(sys, steps)
      && var after := Follow(sys, steps).store;
      && after.candidate == sys.store.candidate && after.state == Holds(StateDocument(PendingRestart, w.revision))
      && after.candidate.value.revision < w.revision && !Sound(after)
  {
    GoMany(sys, 6);
    InstalledAt(sys.store, 6);
    var gone := Follow(sys, Times(Go, 6));
    var marked := At(sys.store, 6).1;
    assert marked.Pending() && marked.state.value.revision == sys.store.candidate.value.revision;
    StagedIsNewer(marked, w);
    StagedStore(marked, w);
    DeliveryIsApplied(gone, w, 3, true);
    var steps := DeliverySteps(marked, w, 3, true);
    var done := Follow(gone, steps);
    hide Installed, DeliverySteps, Applied, Decide, Times, At;
    FailAndRestore(done);
    hide Can, Follow;
    FollowJoined(gone, steps, [Fail, Restore(true)]);
    FollowJoined(sys, Times(Go, 6), steps + [Fail, Restore(true)]);
  }

  lemma FailAndRestore(sys: System)
    requires CanFail(sys.installer)
    ensures Can(sys, [Fail, Restore(true)])
    ensures Follow(sys, [Fail, Restore(true)]).store == sys.store.(candidate := sys.installer.snapshot.candidate)
  {
    assert [Fail, Restore(true)][1..] == [Restore(true)] && [Restore(true)][1..] == [];
  }
}
