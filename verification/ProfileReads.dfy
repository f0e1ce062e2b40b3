/** What the agent's two-file reads can see while an installer run is under way, and what its answers and heartbeat
    reports are worth. */
module ProfileReads {
  import opened Text
  import opened Profile
  import opened ProfileProofs
  import opened ProfileMachine

  // ---- a delivery that reads around a run ---------------------------------

  /** The steps that replace the active file: a publication, and a rollback that puts the file back. */
  predicate Replaces(sys: System, e: Step) {
    (e.Go? && sys.installer.Marked?) || (e == Restore(true) && sys.installer.Restoring? && sys.installer.next == 1)
  }

  lemma ActiveStep(sys: System, e: Step)
    requires Enabled(sys, e) && !Replaces(sys, e)
    ensures Next(sys, e).store.active == sys.store.active
  {}

  /** Some step of the run replaces the active file and leaves one that supersedes a revision. */
  predicate Overtaken(sys: System, steps: seq<Step>, revision: int)
    requires Can(sys, steps)
    decreases |steps|
  {
    steps != [] &&
    ((Replaces(sys, steps[0]) && Outdates(Next(sys, steps[0]).store.active, revision))
     || Overtaken(Next(sys, steps[0]), steps[1..], revision))
  }

  /** An active file under which a revision is not to be staged. */
  predicate Outdates(active: File<Wrapper>, revision: int) {
    active.Corrupt? || (active.Holds? && active.value.revision >= revision)
  }

  lemma {:induction false} OutdatedBySomeStep(sys: System, steps: seq<Step>, revision: int)
    requires Can(sys, steps) && !Outdates(sys.store.active, revision) &&
        Outdates(Follow(sys, steps).store.active, revision)
    ensures Overtaken(sys, steps, revision)
    decreases |steps|
  {
    hide Enabled, Next, Replaces;
    if steps != [] {
      if !Replaces(sys, steps[0]) { ActiveStep(sys, steps[0]); }
      if !Outdates(Next(sys, steps[0]).store.active, revision) {
        OutdatedBySomeStep(Next(sys, steps[0]), steps[1..], revision);
      }
    }
  }

  lemma {:induction false} StillReading(sys: System, steps: seq<Step>)
    requires Can(sys, steps) && sys.agent.Reading? && forall i :: 0 <= i < |steps| ==>
        !steps[i].Judge? && !steps[i].Crash?
    ensures Follow(sys, steps).agent == sys.agent
    decreases |steps|
  {
    if steps != [] { StillReading(Next(sys, steps[0]), steps[1..]); }
  }

  /** In every interleaving a delivery stages although both files together would forbid it exactly when it read an
      active file that permits it, the active file has been replaced since by one that supersedes it, and the state
      file no longer says so. The replacement is a publication or a rollback between its two reads. */
  lemma StagedThoughSupersededIff(sys: System, w: Wrapper, steps: seq<Step>)
    requires sys.agent == Reading(w, sys.store.active) && Can(sys, steps)
    requires forall i :: 0 <= i < |steps| ==> !steps[i].Judge? && !steps[i].Crash?
    ensures var end := Follow(sys, steps);
      && end.agent == Reading(w, sys.store.active)
      && ((Judged(end) == Stage && Decide(end.store, w) != Stage) <==>
            && !Outdates(sys.store.active, w.revision) && Outdates(end.store.active, w.revision)
            && DecideOn(Missing, end.store.state, w) == Stage)
      && (Judged(end) == Stage && Decide(end.store, w) != Stage ==> Overtaken(sys, steps, w.revision))
  {
    StillReading(sys, steps);
    var end := Follow(sys, steps);
    if !Outdates(sys.store.active, w.revision) && Outdates(end.store.active, w.revision) {
      OutdatedBySomeStep(sys, steps, w.revision);
    }
    hide Follow, Can;
  }

  /** Around an undisturbed successful run, with its candidate pending from the start: an older revision that is newer
      than the old active one is staged exactly when the active file is read before the publication and the state file
      after the confirmation. At no moment of the run do the two files together permit it. */
  lemma ReadsAroundRun(s: Store, w: Wrapper, k: nat, m: nat)
    requires s.candidate.Holds? && k <= m <= WHOLE_RUN && w.revision < s.candidate.value.revision
    requires s.state == Holds(StateDocument(PendingRestart, s.candidate.value.revision))
    requires !Outdates(s.active, w.revision)
    ensures DecideOn(At(s, k).1.active, At(s, m).1.state, w) == Stage <==> k <= 6 && m >= 9
    ensures Decide(At(s, k).1, w) == Decide(At(s, m).1, w) == Refuse(Superseded)
  {}

  lemma {:induction false} InstalledMore(s: Store, k: nat, m: nat)
    requires s.candidate.Holds? && k <= m <= WHOLE_RUN
    ensures !At(s, k).0.Restoring? && Installed(At(s, k).0, At(s, k).1, m - k) == At(s, m)
    decreases m - k
  {
    InstalledAt(s, k);
    if k < m {
      InstalledMore(s, k, m - 1);
      AtStep(s, m);
    }
    hide At, Advance;
  }

  lemma AllPut(s: Store, seen: File<Wrapper>, w: Wrapper)
    ensures AllWritten(s, WritesOn(seen, w)) ==
      s.(previous := if seen.Holds? then seen else s.previous, candidate := Holds(w),
         state := Holds(StateDocument(PendingRestart, w.revision)))
  {
    var last := [State(StateDocument(PendingRestart, w.revision))];
    var two := [Candidate(w)] + last;
    assert two[1..] == last && last[1..] == [];
    var first := if seen.Holds? then s.(previous := seen) else s;
    var staged := first.(candidate := Holds(w));
    assert AllWritten(staged, last) == staged.(state := Holds(StateDocument(PendingRestart, w.revision)));
    assert AllWritten(first, two) == AllWritten(staged, last);
    if seen.Holds? {
      assert ([Previous(seen.value)] + two)[1..] == two;
      assert WritesOn(seen, w) == [Previous(seen.value)] + two;
    } else {
      assert WritesOn(seen, w) == two;
    }
  }

  function StaleSteps(s: Store, w: Wrapper): seq<Step> {
    Times(Go, 6) + ([Read(w)] + (Times(Go, 4) + ([Judge] + Times(Put, |WritesOn(s.active, w)|))))
  }

  /** The second read and the writes of a delivery that stages. */
  lemma JudgeAndPut(sys: System)
    requires sys.agent.Reading? && Judged(sys) == Stage
    ensures var steps := [Judge] + Times(Put, |WritesOn(sys.agent.seen, sys.agent.w)|);
      && Can(sys, steps)
      && Follow(sys, steps).store.active == sys.store.active
      && Follow(sys, steps).store.candidate == Holds(sys.agent.w)
  {
    var seen, w, judged := sys.agent.seen, sys.agent.w, Next(sys, Judge);
    var n := |WritesOn(seen, w)|;
    PutMany(judged, n);
    assert WritesOn(seen, w)[..n] == WritesOn(seen, w);
    AllPut(sys.store, seen, w);
    OneStep(sys, Judge);
    hide Next, Enabled, Times, AllWritten, WritesOn, Judged;
    FollowJoined(sys, [Judge], Times(Put, n));
  }

  /** Such a run, write by write: it ends with the superseded revision as candidate under the newer active profile. */
  lemma StaleReadStages(s: Store, w: Wrapper)
    requires s.candidate.Holds? && w.revision < s.candidate.value.revision && !Outdates(s.active, w.revision)
    requires s.state == Holds(StateDocument(PendingRestart, s.candidate.value.revision))
    ensures Can(AtRest(s), StaleSteps(s, w))
    ensures var after := Follow(AtRest(s), StaleSteps(s, w)).store;
      after.active == s.candidate && after.candidate == Holds(w) && !Sound(after)
  {
    var sys := AtRest(s);
    GoMany(sys, 6);
    InstalledAt(s, 6);
    var marked := Follow(sys, Times(Go, 6));
    var read := Next(marked, Read(w));
    OneStep(marked, Read(w));
    GoMany(read, 4);
    InstalledMore(s, 6, WHOLE_RUN);
    var gone := Follow(read, Times(Go, 4));
    ReadsAroundRun(s, w, 6, WHOLE_RUN);
    assert gone.agent == Reading(w, s.active) && gone.store.active == s.candidate;
    hide Next, Enabled, Times, Installed, At, WritesOn, DecideOn;
    JudgeAndPut(gone);
    var last := [Judge] + Times(Put, |WritesOn(s.active, w)|);
    FollowJoined(read, Times(Go, 4), last);
    FollowJoined(marked, [Read(w)], Times(Go, 4) + last);
    FollowJoined(sys, Times(Go, 6), [Read(w)] + (Times(Go, 4) + last));
  }

  lemma OneStep(sys: System, e: Step)
    requires Enabled(sys, e)
    ensures Can(sys, [e]) && Follow(sys, [e]) == Next(sys, e)
  {
    assert [e][1..] == [];
  }

  // ---- heartbeat reports --------------------------------------------------

  /** A state file that lets a heartbeat report a revision as applied. */
  predicate Confirms(state: File<StateDocument>, revision: int) {
    state.Missing? || state == Holds(StateDocument(Active, revision))
  }

  lemma AppliedIff(active: File<Wrapper>, state: File<StateDocument>, revision: int)
    ensures ReportOn(active, state) == ReportApplied(revision) <==>
      active.Holds? && active.value.revision == revision && Confirms(state, revision)
  {}

  predicate Carries(active: File<Wrapper>, revision: int) { active.Holds? && active.value.revision == revision }

  /** After the mark and until the confirmation the state file confirms nothing, and what is published is active. */
  predicate Settled(sys: System) {
    && (sys.installer.Marked? || sys.installer.Published? || sys.installer.Recorded? ==>
          sys.store.state.Holds? && !sys.store.state.value.phase.Active?)
    && (sys.installer.Published? || sys.installer.Recorded? ==> sys.store.active == Holds(sys.installer.c))
    && (sys.agent.Staging? ==> forall i ::
          0 <= i < |sys.agent.writes| && sys.agent.writes[i].State? ==> !sys.agent.writes[i].document.phase.Active?)
  }

  lemma SettledStep(sys: System, e: Step)
    requires Settled(sys) && Enabled(sys, e)
    ensures Settled(Next(sys, e))
  {}

  lemma {:induction false} SettledRuns(sys: System, steps: seq<Step>)
    requires Settled(sys) && Can(sys, steps)
    ensures Settled(Follow(sys, steps))
    decreases |steps|
  {
    hide Settled, Enabled, Next;
    if steps != [] {
      SettledStep(sys, steps[0]);
      SettledRuns(Next(sys, steps[0]), steps[1..]);
    }
  }

  /** A rollback puts back the active file or the state file. */
  predicate PutsBack(sys: System, e: Step) {
    e == Restore(true) && sys.installer.Restoring? && (sys.installer.next == 1 || sys.installer.next == 3)
  }

  predicate SomePutBack(sys: System, steps: seq<Step>)
    requires Can(sys, steps)
    decreases |steps|
  {
    steps != [] && (PutsBack(sys, steps[0]) || SomePutBack(Next(sys, steps[0]), steps[1..]))
  }

  /** While nothing is put back: the active file is the one the heartbeat read, or the state file confirms at most the
      revision that is active now. */
  predicate Watched(sys: System, seen: File<Wrapper>) {
    && Settled(sys) && sys.agent == Watching(seen)
    && (sys.store.active == seen || (sys.store.state.Holds? &&
          (sys.store.state.value.phase.Active? ==> Carries(sys.store.active, sys.store.state.value.revision))))
  }

  lemma WatchedStep(sys: System, e: Step, seen: File<Wrapper>)
    requires Watched(sys, seen) && Enabled(sys, e) && !PutsBack(sys, e) && !e.Tell? && !e.Crash?
    ensures Watched(Next(sys, e), seen)
  {}

  lemma {:induction false} WatchedRun(sys: System, steps: seq<Step>, seen: File<Wrapper>)
    requires Watched(sys, seen) && Can(sys, steps) && !SomePutBack(sys, steps)
    requires forall i :: 0 <= i < |steps| ==> !steps[i].Tell? && !steps[i].Crash?
    ensures Watched(Follow(sys, steps), seen)
    decreases |steps|
  {
    hide Watched, Enabled, Next, PutsBack;
    if steps != [] {
      WatchedStep(sys, steps[0], seen);
      WatchedRun(Next(sys, steps[0]), steps[1..], seen);
    }
  }

  lemma {:induction false} StillWatching(sys: System, steps: seq<Step>)
    requires Can(sys, steps) && sys.agent.Watching? && forall i :: 0 <= i < |steps| ==>
        !steps[i].Tell? && !steps[i].Crash?
    ensures Follow(sys, steps).agent == sys.agent
    decreases |steps|
  {
    if steps != [] { StillWatching(Next(sys, steps[0]), steps[1..]); }
  }

  /** In every run from rest: a report of "applied" does not carry the revision in the active file exactly when the
      active file carried it at the first read, the state file confirms it at the second, and the active file does not
      carry it any more; and then a rollback put back the active file or the state file between the two reads. */
  lemma WrongReportHasRollback(s: Store, before: seq<Step>, between: seq<Step>, revision: int)
    requires Can(AtRest(s), before) && Follow(AtRest(s), before).agent == Resting
    requires var looked := Next(Follow(AtRest(s), before), Look);
      Can(looked, between)
    requires forall i :: 0 <= i < |between| ==> !between[i].Tell? && !between[i].Crash?
    ensures var looked := Next(Follow(AtRest(s), before), Look);
      var end := Follow(looked, between);
      && Enabled(end, Tell)
      && var wrong := Next(end, Tell).told == Some(ReportApplied(revision)) && !Carries(end.store.active, revision);
      && (wrong <==> Carries(looked.store.active, revision) && Confirms(end.store.state, revision)
                     && !Carries(end.store.active, revision))
      && (wrong ==> SomePutBack(looked, between))
  {
    assert Settled(AtRest(s));
    SettledRuns(AtRest(s), before);
    var sys := Follow(AtRest(s), before);
    var looked := Next(sys, Look);
    var end := Follow(looked, between);
    SettledStep(sys, Look);
    StillWatching(looked, between);
    AppliedIff(sys.store.active, end.store.state, revision);
    hide Can, Follow, Settled, ReportOn;
    if !SomePutBack(looked, between) { WatchedRun(looked, between, sys.store.active); }
  }

  /** A store with its first files put back. */
  function PutBack(now: Store, from: Store, n: nat): Store {
    Store(if n > 0 then from.candidate else now.candidate, if n > 1 then from.active else now.active,
          if n > 2 then from.previous else now.previous, if n > 3 then from.state else now.state)
  }

  lemma {:induction false} RestoreMany(sys: System, start: Store, n: nat, left: nat)
    requires sys.installer.Restoring? && sys.installer.next == n && n + left <= 4
    requires sys.store == PutBack(start, sys.installer.snapshot, n)
    ensures Can(sys, Times(Restore(true), left))
    ensures Follow(sys, Times(Restore(true), left)) ==
            sys.(store := PutBack(start, sys.installer.snapshot, n + left),
                installer := sys.installer.(next := n + left))
    decreases left
  {
    if left > 0 {
      var next := Next(sys, Restore(true));
      assert Times(Restore(true), left)[1..] == Times(Restore(true), left - 1);
      RestoreMany(next, start, n + 1, left - 1);
    }
  }

  function RollbackWatch(k: nat, n: nat): seq<Step> {
    Times(Go, k) + ([Look] + ([Fail] + (Times(Restore(true), n) + [Tell])))
  }

  /** A heartbeat that reads the active file after k steps of a run and the state file after that many files of the
      rollback: where everything ends. */
  lemma RollbackWatched(s: Store, k: nat, n: nat)
    requires s.candidate.Holds? && 1 <= k <= 8 && n <= 4
    ensures Can(AtRest(s), RollbackWatch(k, n))
    ensures var end := Follow(AtRest(s), RollbackWatch(k, n));
      && end.store == PutBack(At(s, k).1, First(s, if k <= 4 then k - 1 else 4), n)
      && end.told == Some(ReportOn(At(s, k).1.active, end.store.state))
  {
    var sys := AtRest(s);
    GoMany(sys, k);
    InstalledAt(s, k);
    assert First(s, 4) == s;
    var gone := Follow(sys, Times(Go, k));
    var looked := Next(gone, Look);
    var failed := Next(looked, Fail);
    assert failed.store == PutBack(failed.store, failed.installer.snapshot, 0);
    RestoreMany(failed, failed.store, 0, n);
    var back := Follow(failed, Times(Restore(true), n));
    OneStep(gone, Look);
    OneStep(looked, Fail);
    OneStep(back, Tell);
    hide Next, Enabled, Times, Installed, PutBack, ReportOn;
    FollowJoined(failed, Times(Restore(true), n), [Tell]);
    FollowJoined(looked, [Fail], Times(Restore(true), n) + [Tell]);
    FollowJoined(gone, [Look], [Fail] + (Times(Restore(true), n) + [Tell]));
    FollowJoined(sys, Times(Go, k), [Look] + ([Fail] + (Times(Restore(true), n) + [Tell])));
  }

  /** Exactly which rollbacks of a run make a heartbeat report "applied" wrongly: one that undoes a publication up to
      its
      state file, when the old state file confirms the published revision or is absent; and one after copying aside
      broke off before the active file was copied, once it has removed the active file. */
  lemma WrongReportIff(s: Store, k: nat, n: nat, revision: int)
    requires s.candidate.Holds? && 1 <= k <= 8 && n <= 4
    ensures Can(AtRest(s), RollbackWatch(k, n))
    ensures var end := Follow(AtRest(s), RollbackWatch(k, n));
      (end.told == Some(ReportApplied(revision)) && !Carries(end.store.active, revision)) <==>
        || (k >= 7 && n == 4 && revision == s.candidate.value.revision
            && Confirms(s.state, revision) && !Carries(s.active, revision))
        || (k <= 2 && n >= 2 && Carries(s.active, revision) && (n == 4 || Confirms(s.state, revision)))
  {
    RollbackWatched(s, k, n);
    var end := Follow(AtRest(s), RollbackWatch(k, n));
    AppliedIff(At(s, k).1.active, end.store.state, revision);
    hide Follow, Can, RollbackWatch, ReportOn;
  }

  /** The simplest such run: with a candidate and no other file, the published profile is rolled back between the two
      reads, and reported as applied when there is no active file any more. */
  lemma AppliedAfterRollback(w: Wrapper)
    ensures var s := Store(Holds(w), Missing, Missing, Missing);
      && Can(AtRest(s), RollbackWatch(7, 4))
      && var end := Follow(AtRest(s), RollbackWatch(7, 4));
      && end.told == Some(ReportApplied(w.revision)) && end.store.active.Missing?
  {
    var s := Store(Holds(w), Missing, Missing, Missing);
    RollbackWatched(s, 7, 4);
    hide Follow, Can, RollbackWatch;
  }

  /** Around a successful run of a pending candidate, with nothing or another revision active before: a heartbeat
      reports a failure exactly when it reads the active file before the publication and the state file after the
      confirmation, and "applied" only with the revision that is active. */
  lemma ReportsAroundRun(s: Store, k: nat, m: nat)
    requires s.candidate.Holds? && k <= m <= WHOLE_RUN && !s.active.Corrupt?
    requires s.state == Holds(StateDocument(PendingRestart, s.candidate.value.revision))
    requires !Carries(s.active, s.candidate.value.revision)
    ensures var report := ReportOn(At(s, k).1.active, At(s, m).1.state);
      && (report.ReportFailed? <==> k <= 6 && m >= 9)
      && (report.ReportApplied? <==> k >= 7 && m >= 9)
      && (report.ReportApplied? ==> Carries(At(s, m).1.active, report.revision))
  {}

  // ---- whether "restart scheduled" is true --------------------------------

  /** A run is due or under way. */
  predicate Served(sys: System) { sys.due || !sys.installer.Closed? }

  /** A run is called for, or opens. */
  predicate Serves(sys: System, e: Step) { e == Call(true) || (e.Go? && sys.installer.Closed?) }

  /** With no run due: the agent stops before its call or before recording that the call failed, or a run ends. */
  predicate Orphans(sys: System, e: Step) {
    !sys.due &&
    (|| (e.Crash? && (sys.agent.Scheduling? || sys.agent.Refused?) && sys.installer.Closed?)
     || e.Stop? || e.Report? || e.Abandon? || (e.Go? && sys.installer.Confirmed?))
  }

  /** Some step left the files without a run to come, and none was called for or opened since. */
  predicate Orphaned(sys: System, steps: seq<Step>, before: bool)
    requires Can(sys, steps)
    decreases |steps|
  {
    if steps == [] then before
    else
      var e := steps[0];
      Orphaned(Next(sys, e), steps[1..], !Serves(sys, e) && (before || Orphans(sys, e)))
  }

  predicate Accounted(sys: System, orphaned: bool) {
    && (orphaned ==> !Served(sys))
    && (sys.store.Pending() && !sys.agent.Scheduling? && !sys.agent.Refused? && !Served(sys) ==> orphaned)
    && (sys.agent.Staging? ==> OnlyLastPending(sys.agent.writes))
  }

  /** The pending write is the last one. */
  predicate OnlyLastPending(writes: seq<Write>) { forall i :: 0 <= i < |writes| - 1 ==> !writes[i].State? }

  lemma AccountedAgent(sys: System, e: Step, orphaned: bool)
    requires Accounted(sys, orphaned) && Enabled(sys, e) && AgentStep(e)
    ensures Accounted(Next(sys, e), !Serves(sys, e) && (orphaned || Orphans(sys, e)))
  {}

  lemma AccountedInstaller(sys: System, e: Step, orphaned: bool)
    requires Accounted(sys, orphaned) && Enabled(sys, e) && !AgentStep(e)
    ensures Accounted(Next(sys, e), !Serves(sys, e) && (orphaned || Orphans(sys, e)))
  {}

  /** In every run from files that are not pending: a delivery answered "restart scheduled" because it is pending has
      a run due or under way exactly when the files were not orphaned since the last run was called for or opened. */
  lemma {:induction false} AnswerServedIff(sys: System, steps: seq<Step>, orphaned: bool)
    requires Accounted(sys, orphaned) && Can(sys, steps)
    ensures var after := Follow(sys, steps);
      && Accounted(after, Orphaned(sys, steps, orphaned))
      && forall w :: after.agent.Resting? && Decide(after.store, w) == KeepPending ==>
           (Served(after) <==> !Orphaned(sys, steps, orphaned))
    decreases |steps|
  {
    if steps != [] {
      var e := steps[0];
      if AgentStep(e) {
        AccountedAgent(sys, e, orphaned);
      } else {
        AccountedInstaller(sys, e, orphaned);
      }
      var now := !Serves(sys, e) && (orphaned || Orphans(sys, e));
      hide Accounted, Enabled, Next, Serves, Orphans;
      AnswerServedIff(Next(sys, e), steps[1..], now);
    }
  }

  /** Where such runs start. */
  lemma AccountedAtRest(s: Store)
    requires !s.Pending()
    ensures Accounted(AtRest(s), false)
  {}

  /** A delivery of a revision, looked up again in any order with heartbeats and restarts, once orphaned: as long as no
      newer revision is delivered and nobody opens a run, nothing is written and no run is called for. */
  lemma {:induction false} RedeliveryIsIdle(sys: System, revision: int, steps: seq<Step>)
    requires sys.store.state == Holds(StateDocument(PendingRestart, revision)) && Can(sys, steps)
    requires sys.agent.Resting? || sys.agent.Watching? || (sys.agent.Reading? && sys.agent.w.revision <= revision)
    requires forall i :: 0 <= i < |steps| ==>
        AgentStep(steps[i]) && (steps[i].Read? ==> steps[i].w.revision <= revision)
    ensures var after := Follow(sys, steps);
      after.store == sys.store && after.installer == sys.installer && after.due == sys.due && after.last == sys.last
    decreases |steps|
  {
    if steps != [] { RedeliveryIsIdle(Next(sys, steps[0]), revision, steps[1..]); }
  }

  function CutSteps(s: Store, w: Wrapper): seq<Step> {
    [Read(w), Judge] + (Times(Put, |StagingWrites(s, w)|) + [Crash])
  }

  /** A delivery stopped between its pending write and its call: every redelivery is answered "restart scheduled", and
      no run is due or under way. */
  lemma CutBeforeCall(s: Store, w: Wrapper)
    requires Decide(s, w) == Stage
    ensures Can(AtRest(s), CutSteps(s, w))
    ensures var after := Follow(AtRest(s), CutSteps(s, w));
      after.agent == Resting && Decide(after.store, w) == KeepPending && !Served(after)
  {
    var sys, n := AtRest(s), |StagingWrites(s, w)|;
    var read := Next(sys, Read(w));
    var judged := Next(read, Judge);
    assert Can(sys, [Read(w), Judge]) && Follow(sys, [Read(w), Judge]) == judged by {
      assert [Read(w), Judge][1..] == [Judge] && [Judge][1..] == [];
    }
    PutMany(judged, n);
    PutKeepsDue(judged, n);
    assert StagingWrites(s, w)[..n] == StagingWrites(s, w);
    AllPut(s, s.active, w);
    var put := Follow(judged, Times(Put, n));
    OneStep(put, Crash);
    assert Decide(put.store, w) == KeepPending;
    hide Times, AllWritten, WritesOn, DecideOn;
    FollowJoined(judged, Times(Put, n), [Crash]);
    FollowJoined(sys, [Read(w), Judge], Times(Put, n) + [Crash]);
  }

  lemma {:induction false} PutKeepsDue(sys: System, k: nat)
    requires Can(sys, Times(Put, k))
    ensures Follow(sys, Times(Put, k)).due == sys.due
    decreases k
  {
    if k > 0 {
      assert Times(Put, k)[1..] == Times(Put, k - 1);
      PutKeepsDue(Next(sys, Put), k - 1);
    }
  }
}
