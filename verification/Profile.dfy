/** Managed profiles: the agent stages a candidate, a detached installer publishes it. Four files are shared by
    both; every write of one file either happens fully or not at all. */
module Profile {
  import opened Text

  /** A profile in its one canonical text form, with its revision. */
  datatype Wrapper = Wrapper(revision: int, profile: string)

  datatype Phase = PendingRestart | Active | Failed

  datatype StateDocument = StateDocument(phase: Phase, revision: int)

  /** A file as its reader finds it. */
  datatype File<T> = Missing | Corrupt | Holds(value: T)

  datatype Store = Store(candidate: File<Wrapper>, active: File<Wrapper>, previous: File<Wrapper>,
      state: File<StateDocument>) {
    function ActiveRevision(): int { if active.Holds? then active.value.revision else 0 }

    predicate Pending() { state.Holds? && state.value.phase.PendingRestart? }

    function PendingRevision(): int { if Pending() then state.value.revision else 0 }
  }

  datatype Write = Previous(wrapper: Wrapper) | Candidate(wrapper: Wrapper) | State(document: StateDocument)

  function Written(s: Store, w: Write): Store {
    match w
    case Previous(wrapper) => s.(previous := Holds(wrapper))
    case Candidate(wrapper) => s.(candidate := Holds(wrapper))
    case State(document) => s.(state := Holds(document))
  }

  // ---- the agent's side ---------------------------------------------------

  datatype Decision = Refuse(code: Code) | KeepActive | KeepPending | Stage

  datatype Code = NotReady | CorruptProfile | CorruptState | Superseded | StoreFailed | ScheduleFailed

  datatype Outcome = RestartScheduled(revision: int) | AlreadyActive(revision: int) | Error(code: Code)

  /** What `apply` decides from the active file and the state file as it read them, before it writes anything. */
  function DecideOn(active: File<Wrapper>, state: File<StateDocument>, w: Wrapper): Decision {
    var pending := state.Holds? && state.value.phase.PendingRestart?;
    if active.Corrupt? then Refuse(CorruptProfile)
    else if state.Corrupt? then Refuse(CorruptState)
    else if active.Holds? && w.revision < active.value.revision then Refuse(Superseded)
    else if active.Holds? && w.revision == active.value.revision then KeepActive
    else if pending && w.revision < state.value.revision then Refuse(Superseded)
    else if pending && w.revision == state.value.revision then KeepPending
    else Stage
  }

  /** The decision on two files read at one moment. */
  function Decide(s: Store, w: Wrapper): Decision { DecideOn(s.active, s.state, w) }

  /** The durable writes of one staging, in order, up to the call that schedules the installer. */
  function WritesOn(active: File<Wrapper>, w: Wrapper): seq<Write> {
    (if active.Holds? then [Previous(active.value)] else []) +
    [Candidate(w), State(StateDocument(PendingRestart, w.revision))]
  }

  function StagingWrites(s: Store, w: Wrapper): seq<Write> { WritesOn(s.active, w) }

  function AllWritten(s: Store, writes: seq<Write>): Store
    decreases |writes|
  {
    if writes == [] then s else AllWritten(Written(s, writes[0]), writes[1..])
  }

  /** One delivery: at most `budget` of its writes take effect before it stops, by an error or a crash. */
  function Applied(s: Store, w: Wrapper, budget: nat, scheduled: bool): Store {
    if Decide(s, w) != Stage then s
    else
      var writes := StagingWrites(s, w);
      if budget < |writes| then AllWritten(s, writes[..budget])
      else
        var staged := AllWritten(s, writes);
        if scheduled || budget == |writes| then staged
        else Written(staged, State(StateDocument(Failed, w.revision)))
  }

  /** The agent's store. `budget` counts the writes that will still succeed; `calls` counts scheduling calls. */
  class ProfileStore {
    var candidate: File<Wrapper>
    var active: File<Wrapper>
    var previous: File<Wrapper>
    var state: File<StateDocument>
    var budget: nat
    var calls: nat

    constructor (s: Store)
      ensures View() == s && budget == 0 && calls == 0
    {
      candidate, active, previous, state, budget, calls := s.candidate, s.active, s.previous, s.state, 0, 0;
    }

    function View(): Store
      reads this
    {
      Store(candidate, active, previous, state)
    }

    /** `writeWrapper` and `writeState`. */
    method TryWrite(w: Write) returns (ok: bool)
      modifies this`candidate, this`previous, this`state, this`budget
      ensures ok == (old(budget) > 0) && budget == (if ok then old(budget) - 1 else 0)
      ensures View() == if ok then Written(old(View()), w) else old(View())
    {
      ok := budget > 0;
      if ok {
        budget := budget - 1;
        match w {
          case Previous(wrapper) => previous := Holds(wrapper);
          case Candidate(wrapper) => candidate := Holds(wrapper);
          case State(document) => state := Holds(document);
        }
      }
    }

    /** `apply`: the active file is not in the frame. */
    method Apply(w: Wrapper, ready: bool, scheduled: bool) returns (outcome: Outcome)
      modifies this`candidate, this`previous, this`state, this`budget, this`calls
      ensures View() == if ready then Applied(old(View()), w, old(budget), scheduled) else old(View())
      ensures active == old(active)
      ensures calls == old(calls) +
        (if ready && Decide(old(View()), w) == Stage && old(budget) >= |StagingWrites(old(View()), w)| then 1 else 0)
      ensures outcome ==
        if !ready then Error(NotReady)
        else match Decide(old(View()), w)
          case Refuse(code) => Error(code)
          case KeepActive => AlreadyActive(w.revision)
          case KeepPending => RestartScheduled(w.revision)
          case Stage =>
            if old(budget) < |StagingWrites(old(View()), w)| then Error(StoreFailed)
            else if scheduled then RestartScheduled(w.revision) else Error(ScheduleFailed)
    {
      hide AllWritten, Written;
      if !ready { return Error(NotReady); }
      ghost var before := View();
      if active.Corrupt? { return Error(CorruptProfile); }
      if state.Corrupt? { return Error(CorruptState); }
      if active.Holds? {
        if w.revision < active.value.revision { return Error(Superseded); }
        if w.revision == active.value.revision { return AlreadyActive(active.value.revision); }
      }
      if state.Holds? && state.value.phase.PendingRestart? {
        if w.revision < state.value.revision { return Error(Superseded); }
        if w.revision == state.value.revision { return RestartScheduled(state.value.revision); }
      }
      assert Decide(before, w) == Stage;
      ghost var writes := StagingWrites(before, w);
      ghost var done := 0;
      WriteOne(before, writes, 0);
      if active.Holds? {
        var ok := TryWrite(Previous(active.value));
        if !ok { return Error(StoreFailed); }
        done := 1;
      }
      var staged := TryWrite(Candidate(w));
      if !staged { return Error(StoreFailed); }
      WriteOne(before, writes, done);
      var marked := TryWrite(State(StateDocument(PendingRestart, w.revision)));
      if !marked { return Error(StoreFailed); }
      WriteOne(before, writes, done + 1);
      assert writes[..|writes|] == writes;
      calls := calls + 1;
      if !scheduled {
        var _ := TryWrite(State(StateDocument(Failed, w.revision)));
        return Error(ScheduleFailed);
      }
      return RestartScheduled(w.revision);
    }
  }

  /** One more write after a prefix of them. */
  lemma {:induction false} WriteOne(s: Store, writes: seq<Write>, k: nat)
    requires k < |writes|
    ensures AllWritten(s, writes[..k + 1]) == Written(AllWritten(s, writes[..k]), writes[k])
    ensures AllWritten(s, writes[..0]) == s
    decreases k
  {
    if k > 0 {
      WriteOne(Written(s, writes[0]), writes[1..], k - 1);
      assert writes[..k][1..] == writes[1..][..k - 1];
      assert writes[..k + 1][1..] == writes[1..][..k];
    } else {
      assert writes[..1][1..] == [];
    }
  }

  // ---- what is reported ---------------------------------------------------

  datatype Report = NotConfigured | ReportPending(revision: int) | ReportApplied(revision: int)
                  | ReportFailed(revision: int)

  /** `loadActiveProfile`: the heartbeat observation, from the two files as it read them. */
  function ReportOn(active: File<Wrapper>, state: File<StateDocument>): Report {
    if active.Corrupt? then ReportFailed(0)
    else if state.Corrupt? then ReportFailed(if active.Holds? then active.value.revision else 0)
    else if active.Missing? then
      match state
      case Missing => NotConfigured
      case Holds(d) => if d.phase.PendingRestart? then ReportPending(d.revision) else ReportFailed(d.revision)
    else
      match state
      case Missing => ReportApplied(active.value.revision)
      case Holds(d) =>
        match d.phase
        case PendingRestart => ReportPending(d.revision)
        case Failed => ReportFailed(d.revision)
        case Active =>
          if d.revision == active.value.revision then ReportApplied(active.value.revision)
          else ReportFailed(active.value.revision)
  }

  /** The observation of two files read at one moment. */
  function Observe(s: Store): Report { ReportOn(s.active, s.state) }

  // ---- the installer's side -----------------------------------------------

  /** How far an installer run has come. It remembers the candidate it parsed and what it has copied aside since. */
  datatype Installer =
    | Closed                                             // no run under way
    | Copying(c: Wrapper, snapshot: Store, copied: nat)  // candidate read, that many of the four files copied aside
    | Marked(c: Wrapper, snapshot: Store)                // state says pending
    | Published(c: Wrapper, snapshot: Store)             // active file replaced
    | Recorded(c: Wrapper, snapshot: Store)              // previous file written
    | Confirmed(c: Wrapper)                              // state says active
    | Restoring(c: Wrapper, snapshot: Store, next: nat)  // rolling back, the next of the four files to put back

  const NO_FILES := Store(Missing, Missing, Missing, Missing)

  /** One file taken over from another store, in the order of the script: candidate, active, previous, state. */
  function Taken(s: Store, from: Store, file: nat): Store {
    match file
    case 0 => s.(candidate := from.candidate)
    case 1 => s.(active := from.active)
    case 2 => s.(previous := from.previous)
    case _ => s.(state := from.state)
  }

  /** The next step of `apply_profile` when it succeeds; a run without a readable candidate ends at once. */
  function Advance(i: Installer, s: Store): (r: (Installer, Store))
    requires !i.Restoring?
    ensures !r.0.Restoring?
  {
    match i
    case Closed =>
      if s.candidate.Holds? then (Copying(s.candidate.value, NO_FILES, 0), s)
      else (Closed, s.(state := Holds(StateDocument(Failed, if s.state.Holds? then s.state.value.revision else 1))))
    case Copying(c, snapshot, copied) =>
      if copied < 4 then (Copying(c, Taken(snapshot, s, copied), copied + 1), s)
      else (Marked(c, snapshot), s.(state := Holds(StateDocument(PendingRestart, c.revision))))
    case Marked(c, snapshot) => (Published(c, snapshot), s.(active := Holds(c)))
    case Published(c, snapshot) =>
      (Recorded(c, snapshot), if snapshot.active.Missing? then s else s.(previous := snapshot.active))
    case Recorded(c, _) => (Confirmed(c), s.(state := Holds(StateDocument(Active, c.revision))))
    case Confirmed(_) => (Closed, s.(candidate := Missing))
  }
}
