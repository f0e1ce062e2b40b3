/** Deliveries and successful installer runs as a whole: what one keeps, what a sequence of them ends in, and what
    happens when a delivery falls inside an installer run. */
module ProfileProofs {
  import opened Text
  import opened Profile

  // ---- consistent files ---------------------------------------------------

  /** A pending state always has something to publish, and nothing staged is older than what is active. */
  predicate Sound(s: Store) {
    && (s.Pending() ==> s.candidate.Holds? && s.candidate.value.revision >= s.state.value.revision)
    && (s.candidate.Holds? && s.active.Holds? ==> s.candidate.value.revision >= s.active.value.revision)
  }

  lemma StagingPrefix(s: Store, w: Wrapper, k: nat)
    requires k <= |StagingWrites(s, w)|
    ensures var t := AllWritten(s, StagingWrites(s, w)[..k]);
      var first := if s.active.Holds? then 1 else 0;
      && t.active == s.active
      && t.previous == (if s.active.Holds? && k > 0 then s.active else s.previous)
      && t.candidate == (if k > first then Holds(w) else s.candidate)
      && t.state == (if k > first + 1 then Holds(StateDocument(PendingRestart, w.revision)) else s.state)
  {
    hide AllWritten;
    var writes := StagingWrites(s, w);
    WriteOne(s, writes, 0);
    if k > 0 { WriteOne(s, writes, k - 1); }
    if k > 1 { WriteOne(s, writes, k - 2); }
    if k > 2 { WriteOne(s, writes, k - 3); }
  }

  /** A delivery never writes the active file, writes nothing unless it stages, and keeps the store sound wherever it
      stops. */
  lemma DeliveryKeepsSound(s: Store, w: Wrapper, budget: nat, scheduled: bool)
    requires Sound(s)
    ensures Sound(Applied(s, w, budget, scheduled))
    ensures Applied(s, w, budget, scheduled).active == s.active
    ensures Decide(s, w) != Stage ==> Applied(s, w, budget, scheduled) == s
  {
    hide AllWritten;
    if Decide(s, w) == Stage {
      var writes := StagingWrites(s, w);
      StagingPrefix(s, w, if budget < |writes| then budget else |writes|);
      assert writes[..|writes|] == writes;
    }
  }

  /** The decision in terms of revisions, on readable files: stage exactly above both the active and the pending one; a
      redelivery of either is answered by name; everything else is superseded. */
  lemma DecisionByRevision(active: File<Wrapper>, state: File<StateDocument>, w: Wrapper)
    requires !active.Corrupt? && !state.Corrupt?
    ensures var d := DecideOn(active, state, w);
      var above := active.Holds? ==> active.value.revision < w.revision;
      var pending := state.Holds? && state.value.phase == PendingRestart;
      && (d == KeepActive <==> active.Holds? && active.value.revision == w.revision)
      && (d == KeepPending <==> above && pending && state.value.revision == w.revision)
      && (d == Stage <==> above && (pending ==> state.value.revision < w.revision))
      && (d == Refuse(Superseded) <==>
            || (active.Holds? && active.value.revision > w.revision)
            || (above && pending && state.value.revision > w.revision))
  {}

  /** The report in terms of what is in the two files: each kind is given exactly in the cases listed, with the revision
      of the state file where that is pending or failed, and of the active file where the two contradict each other. */
  lemma ReportByFiles(active: File<Wrapper>, state: File<StateDocument>, revision: int)
    requires !active.Corrupt? && !state.Corrupt?
    ensures var r := ReportOn(active, state);
      && (r == NotConfigured <==> active.Missing? && state.Missing?)
      && (r == ReportPending(revision) <==> state == Holds(StateDocument(PendingRestart, revision)))
      && (r == ReportApplied(revision) <==>
            && active.Holds? && active.value.revision == revision
            && (state.Missing? || state == Holds(StateDocument(Active, revision))))
      && (r == ReportFailed(revision) <==>
            || state == Holds(StateDocument(Failed, revision))
            || (active.Missing? && state == Holds(StateDocument(Active, revision)))
            || (active.Holds? && active.value.revision == revision && state.Holds? && state.value.phase == Active
                && state.value.revision != revision))
  {}

  /** Unreadable files are never acted on: nothing is staged, and the report is a failure. */
  lemma CorruptIsRefused(active: File<Wrapper>, state: File<StateDocument>, w: Wrapper)
    requires active.Corrupt? || state.Corrupt?
    ensures DecideOn(active, state, w) == Refuse(if active.Corrupt? then CorruptProfile else CorruptState)
    ensures ReportOn(active, state) == ReportFailed(if active.Holds? then active.value.revision else 0)
  {}

  // ---- one successful installer run ---------------------------------------

  /** Some successful steps of a run. */
  function Installed(i: Installer, s: Store, k: nat): (r: (Installer, Store))
    requires !i.Restoring?
    ensures !r.0.Restoring?
  {
    if k == 0 then (i, s)
    else
      var (j, now) := Installed(i, s, k - 1);
      Advance(j, now)
  }

  lemma {:induction false} InstalledFront(i: Installer, s: Store, k: nat)
    requires !i.Restoring?
    ensures Installed(i, s, k + 1) == Installed(Advance(i, s).0, Advance(i, s).1, k)
  {
    hide Advance;
    if k > 0 {
      InstalledFront(i, s, k - 1);
    } else {
      assert Installed(i, s, 0) == (i, s);
    }
  }

  /** The first files of a store. */
  function First(s: Store, n: nat): Store {
    Store(if n > 0 then s.candidate else Missing, if n > 1 then s.active else Missing,
          if n > 2 then s.previous else Missing, if n > 3 then s.state else Missing)
  }

  const WHOLE_RUN := 10

  /** Where an undisturbed successful run is after a number of steps. */
  function At(s: Store, k: nat): (Installer, Store)
    requires s.candidate.Holds? && k <= WHOLE_RUN
  {
    var c := s.candidate.value;
    var marked := s.(state := Holds(StateDocument(PendingRestart, c.revision)));
    var published := marked.(active := s.candidate);
    var recorded := if s.active.Missing? then published else published.(previous := s.active);
    var confirmed := recorded.(state := Holds(StateDocument(Active, c.revision)));
    if k == 0 then (Closed, s)
    else if k <= 5 then (Copying(c, First(s, k - 1), k - 1), s)
    else if k == 6 then (Marked(c, s), marked)
    else if k == 7 then (Published(c, s), published)
    else if k == 8 then (Recorded(c, s), recorded)
    else if k == 9 then (Confirmed(c), confirmed)
    else (Closed, confirmed.(candidate := Missing))
  }

  lemma {:induction false} InstalledAt(s: Store, k: nat)
    requires s.candidate.Holds? && k <= WHOLE_RUN
    ensures Installed(Closed, s, k) == At(s, k)
  {
    if k > 0 {
      InstalledAt(s, k - 1);
      AtStep(s, k);
      hide Advance, At;
    }
  }

  lemma AtStep(s: Store, k: nat)
    requires s.candidate.Holds? && 0 < k <= WHOLE_RUN
    ensures !At(s, k - 1).0.Restoring? && Advance(At(s, k - 1).0, At(s, k - 1).1) == At(s, k)
  {
    assert First(s, 4) == s;
  }

  /** A staged delivery followed by one undisturbed installer run is reported as applied. */
  lemma StageThenInstall(s: Store, w: Wrapper, budget: nat)
    requires Decide(s, w) == Stage && budget >= 3
    ensures var t := Installed(Closed, Applied(s, w, budget, true), WHOLE_RUN).1;
      t.active == Holds(w) && t.candidate.Missing? && Observe(t) == ReportApplied(w.revision)
      && t.previous == (if s.active.Holds? then s.active else s.previous)
  {
    var writes := StagingWrites(s, w);
    StagingPrefix(s, w, |writes|);
    assert writes[..|writes|] == writes;
    var staged := Applied(s, w, budget, true);
    hide Applied, AllWritten, Installed;
    InstalledAt(staged, WHOLE_RUN);
  }

  // ---- a sequence of deliveries -------------------------------------------

  /** The deliveries that exceed a bar and everything before them. */
  function Records(ds: seq<Wrapper>, bar: int): seq<Wrapper> {
    if ds == [] then []
    else if ds[0].revision > bar then [ds[0]] + Records(ds[1..], ds[0].revision)
    else Records(ds[1..], bar)
  }

  /** What a delivery has to exceed in order to be staged. */
  function Bar(s: Store): int {
    if s.PendingRevision() > s.ActiveRevision() then s.PendingRevision() else s.ActiveRevision()
  }

  predicate Readable(s: Store) { !s.active.Corrupt? && !s.state.Corrupt? }

  function Staged(s: Store, w: Wrapper): Store {
    s.(candidate := Holds(w), previous := if s.active.Holds? then s.active else s.previous,
       state := Holds(StateDocument(PendingRestart, w.revision)))
  }

  /** Deliveries without a failure, and how often the installer is scheduled. */
  function Delivered(s: Store, ds: seq<Wrapper>): Store
    decreases |ds|
  {
    if ds == [] then s else Delivered(Applied(s, ds[0], 3, true), ds[1..])
  }

  function Calls(s: Store, ds: seq<Wrapper>): nat
    decreases |ds|
  {
    if ds == [] then 0
    else (if Decide(s, ds[0]) == Stage then 1 else 0) + Calls(Applied(s, ds[0], 3, true), ds[1..])
  }

  lemma DeliverOne(s: Store, w: Wrapper)
    requires Readable(s) && w.revision > 0 && s.PendingRevision() >= 0 && s.ActiveRevision() >= 0
    ensures Decide(s, w) == Stage <==> w.revision > Bar(s)
    ensures Applied(s, w, 3, true) == if w.revision > Bar(s) then Staged(s, w) else s
    ensures Readable(Applied(s, w, 3, true))
    ensures w.revision > Bar(s) ==> Bar(Staged(s, w)) == w.revision
  {
    var writes := StagingWrites(s, w);
    StagingPrefix(s, w, |writes|);
    assert writes[..|writes|] == writes;
    hide AllWritten;
  }

  /** The last delivery that raised the bar decides the outcome; the installer is scheduled once per raise, and a
      delivery that does not raise it leaves all four files alone. */
  lemma {:induction false} DeliveriesEnd(s: Store, ds: seq<Wrapper>)
    requires Readable(s) && s.PendingRevision() >= 0 && s.ActiveRevision() >= 0
    requires forall i :: 0 <= i < |ds| ==> ds[i].revision > 0
    ensures var rs := Records(ds, Bar(s));
      && Calls(s, ds) == |rs|
      && Delivered(s, ds) == if rs == [] then s else Staged(s, rs[|rs| - 1])
    decreases |ds|
  {
    hide Applied, Decide, Bar;
    if ds != [] {
      DeliverOne(s, ds[0]);
      DeliveriesEnd(Applied(s, ds[0], 3, true), ds[1..]);
    }
  }

  /** The first delivery of the largest revision, which is above the bar. */
  predicate FirstLargest(ds: seq<Wrapper>, bar: int, first: nat) {
    && first < |ds| && ds[first].revision > bar
    && (forall j :: 0 <= j < |ds| ==> ds[j].revision <= ds[first].revision)
    && (forall j :: 0 <= j < first ==> ds[j].revision < ds[first].revision)
  }

  lemma {:induction false} LastRecord(ds: seq<Wrapper>, bar: int) returns (first: nat)
    ensures var rs := Records(ds, bar);
      && (rs == [] ==> forall j :: 0 <= j < |ds| ==> ds[j].revision <= bar)
      && (rs != [] ==>
        FirstLargest(ds, bar, first) && first < |ds| && ds[first] == rs[|rs| - 1] && ds[first].revision > bar)
  {
    first := 0;
    if ds != [] {
      if ds[0].revision > bar {
        var rest := Records(ds[1..], ds[0].revision);
        var k := LastRecord(ds[1..], ds[0].revision);
        first := if rest == [] then 0 else k + 1;
        assert forall j :: 1 <= j < |ds| ==> ds[j] == ds[1..][j - 1];
      } else {
        var k := LastRecord(ds[1..], bar);
        first := k + 1;
        assert forall j :: 1 <= j < |ds| ==> ds[j] == ds[1..][j - 1];
      }
    }
  }

  /** From a store that is not pending: pending at the largest delivered revision above the active one, with the
      first delivery of that revision as candidate and one scheduling call per new maximum; untouched when there
      is none. */
  lemma DeliveriesKeepLargest(s: Store, ds: seq<Wrapper>)
    requires Readable(s) && !s.Pending() && s.ActiveRevision() >= 0
    requires forall i :: 0 <= i < |ds| ==> ds[i].revision > 0
    ensures Calls(s, ds) == |Records(ds, s.ActiveRevision())|
    ensures (forall i :: 0 <= i < |ds| ==> ds[i].revision <= s.ActiveRevision()) ==>
        Delivered(s, ds) == s && Calls(s, ds) == 0
    ensures (exists i :: 0 <= i < |ds| && ds[i].revision > s.ActiveRevision()) ==>
      exists first: nat :: FirstLargest(ds, s.ActiveRevision(), first) && Delivered(s, ds) == Staged(s, ds[first])
  {
    hide Delivered, Calls, Records, Staged, FirstLargest;
    DeliveriesEnd(s, ds);
    assert Bar(s) == s.ActiveRevision();
    var first := LastRecord(ds, Bar(s));
    if Records(ds, Bar(s)) != [] {
      assert FirstLargest(ds, s.ActiveRevision(), first) && Delivered(s, ds) == Staged(s, ds[first]);
    }
  }

  // ---- a delivery inside a successful installer run -----------------------

  /** The delivery is made after k installer steps; the installer then runs to its end. */
  function Interleaved(s: Store, k: nat, w: Wrapper): Store
    requires k <= WHOLE_RUN
  {
    var (i, now) := Installed(Closed, s, k);
    Installed(i, Applied(now, w, 3, true), WHOLE_RUN - k).1
  }

  /** The delivered profile is still there to be used. */
  predicate Survives(s: Store, w: Wrapper) { s.candidate == Holds(w) || s.active == Holds(w) }

  /** Steps a run still has before it. */
  function Left(i: Installer): nat
    requires !i.Restoring? && (i.Copying? ==> i.copied <= 4)
  {
    match i
    case Closed => 0
    case Copying(_, _, copied) => 9 - copied
    case Marked(_, _) => 4
    case Published(_, _) => 3
    case Recorded(_, _) => 2
    case Confirmed(_) => 1
  }

  /** The rest of a run that has parsed its candidate, on whatever store it finds. */
  lemma {:induction false} FinishFrom(i: Installer, s: Store)
    requires !i.Restoring? && !i.Closed? && (i.Copying? ==> i.copied <= 4)
    ensures var t := Installed(i, s, Left(i));
      && t.0 == Closed && t.1.candidate.Missing?
      && (!i.Confirmed? ==> t.1.state == Holds(StateDocument(Active, i.c.revision)))
      && (i.Confirmed? ==> t.1.state == s.state)
      && t.1.active == if i.Copying? || i.Marked? then Holds(i.c) else s.active
    decreases Left(i)
  {
    InstalledFront(i, s, Left(i) - 1);
    var (j, next) := Advance(i, s);
    if i.Confirmed? {
      assert Installed(j, next, 0) == (j, next);
    } else {
      FinishFrom(j, next);
    }
  }

  /** A whole delivery accepted at some point of a successful installer run is kept exactly when the run has not parsed
      its candidate yet, has removed it already, or parsed the very same profile. In between it is lost although the
      agent reported it as scheduled. Of these points, only the one between the confirmation and the removal leaves
      a pending state with no candidate. */
  lemma OverlapLosesProfile(s: Store, k: nat, w: Wrapper)
    requires s.candidate.Holds? && k <= WHOLE_RUN
    requires Decide(Installed(Closed, s, k).1, w) == Stage
    ensures Survives(Interleaved(s, k, w), w) <==> k == 0 || k == WHOLE_RUN || w == s.candidate.value
    ensures Interleaved(s, k, w).Pending() <==> k >= 9
    ensures Sound(Interleaved(s, k, w)) <==> k != 9
  {
    InstalledAt(s, k);
    var (i, now) := Installed(Closed, s, k);
    var staged := Applied(now, w, 3, true);
    StagedStore(now, w);
    hide Installed, Applied, Decide;
    if k == 0 {
      InstalledAt(staged, WHOLE_RUN);
    } else if k < WHOLE_RUN {
      assert Left(i) == WHOLE_RUN - k;
      FinishFrom(i, staged);
    } else {
      NoSteps(i, staged);
      assert w.revision > now.active.value.revision by { StagedIsNewer(now, w); }
    }
  }

  lemma NoSteps(i: Installer, s: Store)
    requires !i.Restoring?
    ensures Installed(i, s, 0) == (i, s)
  {}

  lemma StagedIsNewer(s: Store, w: Wrapper)
    requires Decide(s, w) == Stage
    ensures s.active.Holds? ==> w.revision > s.active.value.revision
    ensures s.Pending() ==> w.revision > s.state.value.revision
  {}

  lemma StagedStore(s: Store, w: Wrapper)
    requires Decide(s, w) == Stage
    ensures Applied(s, w, 3, true) == Staged(s, w)
  {
    var writes := StagingWrites(s, w);
    StagingPrefix(s, w, |writes|);
    assert writes[..|writes|] == writes;
    hide AllWritten;
  }
}
