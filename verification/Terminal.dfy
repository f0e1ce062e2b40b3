/** The terminal relay: one reader loop and one output forwarder per session share a session map. Each step below is
    one critical section or one call made outside of it, so a run is any interleaving of them. */
module Terminal {
  import opened Text

  const MAX_SESSIONS := 8

  /** Processes are numbered in the order they are spawned. */
  datatype Process = Process(number: nat)

  /** The reader loop, or the output forwarder of a process. */
  datatype Thread = Reader | Forwarder(of: Process)

  /** What a thread is about to do. */
  datatype Task =
    | Idle                                   // reading the next message, or copying output
    | Announcing(id: string, p: Process)     // registered, the ready message not sent yet
    | Wanting(id: string)                    // in closeSession, before the lock
    | Holding(ps: seq<Process>, leaving: bool) // took processes off the map, not all closed yet
    | Gone

  datatype State = State(
    sessions: map<string, Process>,
    spawned: nat,
    threads: map<Thread, Task>,
    watched: map<Thread, string>,   // the session identifier each forwarder was started with
    closed: seq<Process>)

  function Initial(): State { State(map[], 0, map[Reader := Idle], map[], []) }

  // ---- the critical sections ----------------------------------------------

  datatype OpenResult = Opened(p: Process) | LimitReached | Exists | SpawnFailed

  function OpenSession(sessions: map<string, Process>, spawned: nat, id: string, spawns: bool): OpenResult {
    if |sessions| >= MAX_SESSIONS then LimitReached
    else if id in sessions then Exists
    else if !spawns then SpawnFailed
    else Opened(Process(spawned))
  }

  class AgentTerminalServer {
    var sessions: map<string, Process>
    var spawned: nat

    constructor ()
      ensures sessions == map[] && spawned == 0
    {
      sessions, spawned := map[], 0;
    }

    /** The locked part of `open`. */
    method Open(id: string, spawns: bool) returns (r: OpenResult)
      modifies this
      ensures r == OpenSession(old(sessions), old(spawned), id, spawns)
      ensures r.LimitReached? <==> |old(sessions)| >= 8
      ensures r.Exists? <==> |old(sessions)| < 8 && id in old(sessions)
      ensures r.SpawnFailed? <==> |old(sessions)| < 8 && id !in old(sessions) && !spawns
      ensures r.Opened? ==> sessions == old(sessions)[id := r.p] && spawned == old(spawned) + 1
      ensures !r.Opened? ==> sessions == old(sessions) && spawned == old(spawned)
      ensures forall s: State ::
        Enabled(s, Register(id)) && s.sessions == old(sessions) && s.spawned == old(spawned) && spawns ==>
        r.Opened? && Next(s, Register(id)).sessions == sessions && Next(s, Register(id)).spawned == spawned
    {
      if |sessions| >= MAX_SESSIONS { return LimitReached; }
      if id in sessions { return Exists; }
      if !spawns { return SpawnFailed; }
      var p := Process(spawned);
      spawned := spawned + 1;
      sessions := sessions[id := p];
      return Opened(p);
    }

    /** The locked part of `closeSession`: the step of the machine below, whichever thread takes it. The caller holds
        the process that was registered under the identifier, or nothing. */
    method Take(id: string) returns (p: Option<Process>)
      modifies this`sessions
      ensures p.Some? <==> id in old(sessions)
      ensures p.Some? ==> old(sessions) == sessions[id := p.value]
      ensures id !in sessions && (p.None? ==> sessions == old(sessions))
      ensures forall s: State, t: Thread ::
        Enabled(s, Step.Take(t)) && s.threads[t] == Wanting(id) && s.sessions == old(sessions) ==>
          && Next(s, Step.Take(t)).sessions == sessions
          && HeldIn(Next(s, Step.Take(t)).threads[t]) == if p.Some? then [p.value] else []
    {
      p := if id in sessions then Some(sessions[id]) else None;
      sessions := sessions - {id};
      assert p.Some? ==> old(sessions) == sessions[id := p.value];
      assert p.None? ==> sessions == old(sessions);
    }

    /** The locked part of `closeAll`, and the order its loop takes the processes in. */
    method TakeAll() returns (ps: seq<Process>)
      requires Injective(sessions)
      modifies this`sessions
      ensures sessions == map[]
      ensures IsListing(ps, old(sessions))
      ensures forall s: State ::
        Reader in s.threads && s.threads[Reader].Idle? && s.sessions == old(sessions) ==>
          Enabled(s, Step.TakeAll(ps)) && Next(s, Step.TakeAll(ps)).sessions == sessions
    {
      var taken := sessions;
      sessions := map[];
      ps := [];
      var left := taken.Keys;
      while left != {}
        invariant left <= taken.Keys
        invariant forall k :: k in ps <==> exists id :: id in taken && id !in left && taken[id] == k
        invariant Distinct(ps)
        decreases |left|
      {
        var id :| id in left;
        assert taken[id] !in ps;
        ps := ps + [taken[id]];
        left := left - {id};
      }
    }
  }

  ghost predicate Injective(sessions: map<string, Process>) {
    forall a, b :: a in sessions && b in sessions && sessions[a] == sessions[b] ==> a == b
  }

  /** Every registered process once, in some order. */
  ghost predicate IsListing(ps: seq<Process>, sessions: map<string, Process>) {
    && Distinct(ps)
    && forall p :: p in ps <==> exists id :: id in sessions && sessions[id] == p
  }

  // ---- the steps ----------------------------------------------------------

  datatype Step =
    | Register(id: string)                 // reader: the locked part of open succeeds
    | Announce(sent: bool)                 // reader: the ready message is sent, or fails
    | WantClose(thread: Thread, id: string)   // a close message, a failed write, or the end of a process's output
    | Take(thread: Thread)                    // the locked part of closeSession
    | CloseOne(thread: Thread)                // one process.Close call
    | TakeAll(ps: seq<Process>)            // reader: the transport is gone, the locked part of closeAll

  ghost predicate Enabled(s: State, e: Step) {
    match e
    case Register(id) =>
      Reader in s.threads && s.threads[Reader].Idle? && OpenSession(s.sessions, s.spawned, id, true).Opened?
    case Announce(_) => Reader in s.threads && s.threads[Reader].Announcing?
    case WantClose(thread, id) =>
      thread in s.threads && s.threads[thread].Idle? &&
          (thread != Reader ==> thread in s.watched && s.watched[thread] == id)
    case Take(thread) => thread in s.threads && s.threads[thread].Wanting?
    case CloseOne(thread) => thread in s.threads && s.threads[thread].Holding? && s.threads[thread].ps != []
    case TakeAll(ps) => Reader in s.threads && s.threads[Reader].Idle? && IsListing(ps, s.sessions)
  }

  /** A session can be opened exactly when the reader is free, fewer than eight are registered and its name is not. */
  lemma RegisterEnabledIff(s: State, id: string)
    ensures Enabled(s, Register(id)) <==>
      Reader in s.threads && s.threads[Reader].Idle? && |s.sessions| < 8 && id !in s.sessions
  {}

  /** What a thread does once it holds nothing any more: the reader goes on reading, a forwarder and a leaving reader
      end. */
  function Resume(thread: Thread, leaving: bool): Task { if thread == Reader && !leaving then Idle else Gone }

  ghost function Next(s: State, e: Step): State
    requires Enabled(s, e)
  {
    match e
    case Register(id) =>
      s.(sessions := s.sessions[id := Process(s.spawned)], spawned := s.spawned + 1,
         threads := s.threads[Reader := Announcing(id, Process(s.spawned))])
    case Announce(sent) =>
      var task := s.threads[Reader];
      if sent then
        s.(threads := s.threads[Reader := Idle][Forwarder(task.p) := Idle],
            watched := s.watched[Forwarder(task.p) := task.id])
      else s.(threads := s.threads[Reader := Wanting(task.id)])
    case WantClose(thread, id) => s.(threads := s.threads[thread := Wanting(id)])
    case Take(thread) =>
      var id := s.threads[thread].id;
      if id in s.sessions then
        s.(sessions := s.sessions - {id}, threads := s.threads[thread := Holding([s.sessions[id]], false)])
      else s.(threads := s.threads[thread := Resume(thread, false)])
    case CloseOne(thread) =>
      var task := s.threads[thread];
      var rest := task.ps[1..];
      s.(closed := s.closed + [task.ps[0]],
         threads := s.threads[thread := if rest == [] then Resume(thread, task.leaving)
             else Holding(rest, task.leaving)])
    case TakeAll(ps) =>
      s.(sessions := map[], threads := s.threads[Reader := if ps == [] then Gone else Holding(ps, true)])
  }

  // ---- what every interleaving keeps --------------------------------------

  function HeldIn(task: Task): seq<Process> { if task.Holding? then task.ps else [] }

  ghost predicate Registered(s: State, p: Process) { exists id :: id in s.sessions && s.sessions[id] == p }

  ghost predicate HeldBySome(s: State, p: Process) { exists t :: t in s.threads && p in HeldIn(s.threads[t]) }

  /** Where a spawned process is. */
  datatype Place = In(id: string) | With(thread: Thread) | Closed

  type Places = map<Process, Place>

  ghost predicate SessionsAt(sessions: map<string, Process>, places: Places) {
    && (forall id :: id in sessions ==> sessions[id] in places && places[sessions[id]] == In(id))
    && (forall p :: p in places && places[p].In? ==> places[p].id in sessions && sessions[places[p].id] == p)
  }

  ghost predicate HeldAt(threads: map<Thread, Task>, places: Places) {
    && (forall t :: t in threads ==> Distinct(HeldIn(threads[t])))
    && (forall t, p :: t in threads && p in HeldIn(threads[t]) ==> p in places && places[p] == With(t))
    && (forall p :: p in places && places[p].With? ==>
        places[p].thread in threads && p in HeldIn(threads[places[p].thread]))
  }

  ghost predicate ClosedAt(closed: seq<Process>, places: Places) {
    && Distinct(closed)
    && (forall p :: p in closed ==> p in places && places[p] == Closed)
    && (forall p :: p in places && places[p].Closed? ==> p in closed)
  }

  ghost predicate Spawned(spawned: nat, places: Places) {
    forall p :: p in places <==> p.number < spawned
  }

  /** Each spawned process has one place, and the map, the threads' hands and the closed list agree with it. */
  ghost predicate Placed(s: State, places: Places) {
    && Spawned(s.spawned, places) && SessionsAt(s.sessions, places)
    && HeldAt(s.threads, places) && ClosedAt(s.closed, places)
  }

  /** A process that changes its place without entering or leaving one of the three keeps that one right. */
  lemma UnheldMove(threads: map<Thread, Task>, places: Places, p: Process, place: Place)
    requires HeldAt(threads, places) && !place.With? && (p in places ==> !places[p].With?)
    ensures HeldAt(threads, places[p := place])
  {
    hide Distinct;
  }

  lemma UnclosedMove(closed: seq<Process>, places: Places, p: Process, place: Place)
    requires ClosedAt(closed, places) && !place.Closed? && (p in places ==> !places[p].Closed?)
    ensures ClosedAt(closed, places[p := place])
  {
    hide Distinct;
  }

  lemma UnregisteredMove(sessions: map<string, Process>, places: Places, p: Process, place: Place)
    requires SessionsAt(sessions, places) && !place.In? && (p in places ==> !places[p].In?)
    ensures SessionsAt(sessions, places[p := place])
  {}

  lemma RegisterFacts(s: State, id: string)
    requires Enabled(s, Register(id))
    ensures id !in s.sessions && |s.sessions| < MAX_SESSIONS
    ensures Reader in s.threads && s.threads[Reader].Idle?
    ensures Next(s, Register(id)) == State(s.sessions[id := Process(s.spawned)], s.spawned + 1,
      s.threads[Reader := Announcing(id, Process(s.spawned))], s.watched, s.closed)
  {}

  lemma RegisterPlaces(s: State, places: Places, id: string) returns (after: Places)
    requires Placed(s, places) && Enabled(s, Register(id))
    ensures Placed(Next(s, Register(id)), after)
  {
    hide SessionsAt, HeldAt, ClosedAt, Enabled, Next;
    RegisterFacts(s, id);
    var p := Process(s.spawned);
    after := places[p := In(id)];
    assert p !in places;
    UnheldMove(s.threads, places, p, In(id));
    UnclosedMove(s.closed, places, p, In(id));
    AddSession(s.sessions, places, id, p);
    HeldSame(s.threads, s.threads[Reader := Announcing(id, p)], after);
    assert Spawned(s.spawned + 1, after);
  }

  lemma AddSession(sessions: map<string, Process>, places: Places, id: string, p: Process)
    requires SessionsAt(sessions, places) && id !in sessions && p !in places
    ensures SessionsAt(sessions[id := p], places[p := In(id)])
  {}

  /** Threads change what they are about to do, but not what they hold. */
  lemma HeldSame(before: map<Thread, Task>, after: map<Thread, Task>, places: Places)
    requires HeldAt(before, places) && before.Keys <= after.Keys
    requires forall t :: t in after ==> HeldIn(after[t]) == if t in before then HeldIn(before[t]) else []
    ensures HeldAt(after, places)
  {
    hide HeldIn;
    forall t | t in after ensures Distinct(HeldIn(after[t])) {}
    hide Distinct;
  }

  /** Registered processes move from the map into the hands of a thread that held none. */
  function Taken(places: Places, ps: seq<Process>, thread: Thread): Places {
    map p | p in places :: if p in ps then With(thread) else places[p]
  }

  lemma TakeSessions(before: map<string, Process>, after: map<string, Process>, places: Places, ps: seq<Process>,
      thread: Thread)
    requires SessionsAt(before, places)
    requires forall id :: id in after ==> id in before && after[id] == before[id] && after[id] !in ps
    requires forall id :: id in before && id !in after ==> before[id] in ps
    ensures SessionsAt(after, Taken(places, ps, thread))
  {}

  lemma TakeHeld(before: map<Thread, Task>, after: map<Thread, Task>, places: Places, ps: seq<Process>, thread: Thread)
    requires HeldAt(before, places) && thread in before && HeldIn(before[thread]) == [] && Distinct(ps)
    requires forall p :: p in ps ==> p in places && places[p].In?
    requires after.Keys == before.Keys
    requires forall t :: t in after ==> HeldIn(after[t]) == if t == thread then ps else HeldIn(before[t])
    ensures HeldAt(after, Taken(places, ps, thread))
  {
    hide HeldIn, Distinct;
  }

  lemma TakeClosed(closed: seq<Process>, places: Places, ps: seq<Process>, thread: Thread)
    requires ClosedAt(closed, places) && forall p :: p in ps ==> p in places && places[p].In?
    ensures ClosedAt(closed, Taken(places, ps, thread))
  {
    hide Distinct;
  }

  lemma TakeOnePlaces(s: State, places: Places, thread: Thread) returns (after: Places)
    requires Placed(s, places) && Enabled(s, Take(thread)) && s.threads[thread].id in s.sessions
    ensures Placed(Next(s, Take(thread)), after)
  {
    var id := s.threads[thread].id;
    var p := s.sessions[id];
    var t := Next(s, Take(thread));
    after := Taken(places, [p], thread);
    assert p in places && places[p] == In(id);
    TakeSessions(s.sessions, t.sessions, places, [p], thread);
    hide SessionsAt;
    OneIsDistinct(p);
    TakeHeld(s.threads, t.threads, places, [p], thread);
    TakeClosed(s.closed, places, [p], thread);
    hide HeldAt, ClosedAt;
  }

  lemma OneIsDistinct(p: Process)
    ensures Distinct([p])
  {}

  lemma TakeAllPlaces(s: State, places: Places, ps: seq<Process>) returns (after: Places)
    requires Placed(s, places) && Enabled(s, TakeAll(ps))
    ensures Placed(Next(s, TakeAll(ps)), after)
  {
    var t := Next(s, TakeAll(ps));
    after := Taken(places, ps, Reader);
    TakeSessions(s.sessions, t.sessions, places, ps, Reader);
    hide Distinct;
    TakeHeld(s.threads, t.threads, places, ps, Reader);
    TakeClosed(s.closed, places, ps, Reader);
    hide HeldAt, ClosedAt, SessionsAt;
  }

  lemma DistinctTail(ps: seq<Process>)
    requires ps != [] && Distinct(ps)
    ensures Distinct(ps[1..]) && ps[0] !in ps[1..] && forall p :: p in ps <==> p == ps[0] || p in ps[1..]
  {
    assert ps == [ps[0]] + ps[1..];
  }

  lemma CloseHeld(before: map<Thread, Task>, after: map<Thread, Task>, places: Places, thread: Thread, first: Process,
      rest: seq<Process>)
    requires HeldAt(before, places) && thread in before && after.Keys == before.Keys
    requires Distinct(rest) && first !in rest
    requires forall p :: p in HeldIn(before[thread]) <==> p == first || p in rest
    requires forall t :: t in after ==> HeldIn(after[t]) == if t == thread then rest else HeldIn(before[t])
    ensures HeldAt(after, places[first := Closed])
  {
    hide HeldIn, Distinct;
    assert first in HeldIn(before[thread]);
    var now := places[first := Closed];
    forall t, p | t in after && p in HeldIn(after[t]) ensures p in now && now[p] == With(t) {
      assert p in HeldIn(before[t]);
      assert places[first] == With(thread);
    }
    forall p | p in now && now[p].With? ensures now[p].thread in after && p in HeldIn(after[now[p].thread]) {
      assert places[p] == now[p];
      assert p in HeldIn(before[now[p].thread]);
    }
  }

  lemma CloseClosed(closed: seq<Process>, places: Places, p: Process)
    requires ClosedAt(closed, places) && p in places && !places[p].Closed?
    ensures ClosedAt(closed + [p], places[p := Closed])
  {}

  lemma ClosePlaces(s: State, places: Places, thread: Thread) returns (after: Places)
    requires Placed(s, places) && Enabled(s, CloseOne(thread))
    ensures Placed(Next(s, CloseOne(thread)), after)
  {
    var p := s.threads[thread].ps[0];
    var t := Next(s, CloseOne(thread));
    after := places[p := Closed];
    assert HeldIn(s.threads[thread])[0] == p && p in HeldIn(s.threads[thread]);
    assert p in places && places[p] == With(thread);
    DistinctTail(s.threads[thread].ps);
    CloseHeld(s.threads, t.threads, places, thread, p, s.threads[thread].ps[1..]);
    UnregisteredMove(s.sessions, places, p, Closed);
    CloseClosed(s.closed, places, p);
    hide HeldAt, ClosedAt, SessionsAt;
  }

  lemma StepPlaces(s: State, places: Places, e: Step) returns (after: Places)
    requires Placed(s, places) && Enabled(s, e)
    requires Reader in s.threads
    requires s.threads[Reader].Announcing? ==> Forwarder(s.threads[Reader].p) !in s.threads
    ensures Placed(Next(s, e), after)
  {
    hide HeldAt, ClosedAt, SessionsAt, IsListing, Spawned;
    after := places;
    match e {
      case Register(id) => after := RegisterPlaces(s, places, id);
      case Announce(sent) => HeldSame(s.threads, Next(s, e).threads, places);
      case WantClose(thread, id) => HeldSame(s.threads, Next(s, e).threads, places);
      case Take(thread) =>
        if s.threads[thread].id in s.sessions {
          after := TakeOnePlaces(s, places, thread);
        } else {
          HeldSame(s.threads, Next(s, e).threads, places);
        }
      case CloseOne(thread) => after := ClosePlaces(s, places, thread);
      case TakeAll(ps) => after := TakeAllPlaces(s, places, ps);
    }
  }

  /** The reader is leaving or has left. */
  predicate Leaving(task: Task) { task.Gone? || (task.Holding? && task.leaving) }

  ghost predicate ReaderShape(s: State) {
    && |s.sessions| <= MAX_SESSIONS
    && Reader in s.threads
    && (Leaving(s.threads[Reader]) ==> s.sessions == map[])
  }

  ghost predicate ThreadShape(s: State) {
    && Reader in s.threads
    && (forall p :: Forwarder(p) in s.threads ==> p.number < s.spawned)
    && (s.threads[Reader].Announcing? ==>
        Forwarder(s.threads[Reader].p) !in s.threads && s.threads[Reader].p.number < s.spawned)
  }

  lemma ReaderShapeRegister(s: State, id: string)
    requires ReaderShape(s) && Enabled(s, Register(id))
    ensures ReaderShape(Next(s, Register(id)))
  {
    hide Enabled, Next;
    RegisterFacts(s, id);
    BiggerMap(s.sessions, id, Process(s.spawned));
  }

  lemma TakeFacts(s: State, thread: Thread)
    requires Enabled(s, Take(thread))
    ensures thread in s.threads && s.threads[thread].Wanting?
    ensures var t := Next(s, Take(thread));
      && (t.sessions == s.sessions || t.sessions == s.sessions - {s.threads[thread].id})
      && t.threads.Keys == s.threads.Keys &&
          (Reader in t.threads && Leaving(t.threads[Reader]) ==> Leaving(s.threads[Reader]))
  {}

  lemma ReaderShapeTake(s: State, thread: Thread)
    requires ReaderShape(s) && Enabled(s, Take(thread))
    ensures ReaderShape(Next(s, Take(thread)))
  {
    hide Enabled, Next;
    TakeFacts(s, thread);
    SmallerMap(s.sessions, s.threads[thread].id);
  }

  lemma ReaderShapeOther(s: State, e: Step)
    requires ReaderShape(s) && Enabled(s, e) && !e.Register? && !e.Take?
    ensures ReaderShape(Next(s, e))
  {
    hide IsListing;
  }

  lemma ReaderShapeStep(s: State, e: Step)
    requires ReaderShape(s) && Enabled(s, e)
    ensures ReaderShape(Next(s, e))
  {
    hide Enabled, Next, ReaderShape;
    if e.Register? {
      ReaderShapeRegister(s, e.id);
    } else if e.Take? {
      ReaderShapeTake(s, e.thread);
    } else {
      ReaderShapeOther(s, e);
    }
  }

  lemma ThreadShapeStep(s: State, e: Step)
    requires ThreadShape(s) && Enabled(s, e)
    ensures ThreadShape(Next(s, e))
  {
    hide IsListing, OpenSession;
  }

  lemma BiggerMap(m: map<string, Process>, id: string, p: Process)
    ensures |m[id := p]| <= |m| + 1
  {
    assert m[id := p].Keys == m.Keys + {id};
  }

  lemma SmallerMap(m: map<string, Process>, id: string)
    ensures |m - {id}| <= |m|
    ensures m == map[] ==> m - {id} == map[]
  {
    var less := (m - {id}).Keys;
    assert m.Keys == less + (m.Keys - less);
  }

  ghost predicate Path(states: seq<State>, steps: seq<Step>) {
    && |states| == |steps| + 1
    && forall i :: 0 <= i < |steps| ==> Enabled(states[i], steps[i]) && states[i + 1] == Next(states[i], steps[i])
  }

  ghost predicate Run(states: seq<State>, steps: seq<Step>) { Path(states, steps) && states[0] == Initial() }

  ghost predicate Sound(s: State, places: Places) { ReaderShape(s) && ThreadShape(s) && Placed(s, places) }

  lemma SoundInitially()
    ensures Sound(Initial(), map[])
  {}

  lemma SoundStep(s: State, places: Places, e: Step) returns (after: Places)
    requires Sound(s, places) && Enabled(s, e)
    ensures Sound(Next(s, e), after)
  {
    hide Placed, Next, Enabled;
    ReaderShapeStep(s, e);
    ThreadShapeStep(s, e);
    after := StepPlaces(s, places, e);
  }

  lemma {:induction false} RunPlaces(states: seq<State>, steps: seq<Step>, n: nat) returns (places: Places)
    requires Run(states, steps) && n <= |steps|
    ensures Sound(states[n], places)
  {
    hide Sound, Next, Enabled, Initial;
    if n == 0 {
      SoundInitially();
      places := map[];
    } else {
      places := RunPlaces(states, steps, n - 1);
      places := SoundStep(states[n - 1], places, steps[n - 1]);
    }
  }

  /** For every interleaving: at most eight sessions; each spawned process is in exactly one of registered, held by one
      closer, or closed once; and nothing is registered once the server has returned. */
  lemma EverySessionAccounted(states: seq<State>, steps: seq<Step>, n: nat, p: Process)
    requires Run(states, steps) && n <= |steps| && p.number < states[n].spawned
    ensures var s := states[n];
      && |s.sessions| <= MAX_SESSIONS && Distinct(s.closed)
      && (Registered(s, p) || HeldBySome(s, p) || p in s.closed)
      && !(Registered(s, p) && HeldBySome(s, p)) && !(Registered(s, p) && p in s.closed) &&
          !(HeldBySome(s, p) && p in s.closed)
      && (forall t, u ::
            t in s.threads && u in s.threads && p in HeldIn(s.threads[t]) && p in HeldIn(s.threads[u]) ==> t == u)
      && (Reader in s.threads && s.threads[Reader].Gone? ==> s.sessions == map[])
  {
    hide Run, Next, Enabled, Distinct, HeldIn;
    var places := RunPlaces(states, steps, n);
    assert p in places;
  }

  // ---- whose process a forwarder closes -----------------------------------

  /** A thread that has not taken anything off the map yet. */
  predicate Live(task: Task) { task.Idle? || task.Wanting? }

  /** Some forwarder of an earlier session of this identifier has not noticed its end. */
  ghost predicate Lingers(s: State, id: string) {
    exists t :: t in s.threads && t in s.watched && t != Reader && Live(s.threads[t]) && s.watched[t] == id
  }

  /** No session is opened while a forwarder of its identifier lingers. */
  ghost predicate Careful(states: seq<State>, steps: seq<Step>)
    requires |states| == |steps| + 1
  {
    forall i :: 0 <= i < |steps| && steps[i].Register? ==> !Lingers(states[i], steps[i].id)
  }

  /** Some forwarder takes a process that is not its own off the map. */
  ghost predicate TakesForeign(states: seq<State>, steps: seq<Step>)
    requires |states| == |steps| + 1
  {
    exists n :: 0 <= n < |steps| && steps[n].Take? && Foreign(states[n + 1], steps[n].thread)
  }

  ghost predicate Foreign(s: State, thread: Thread) {
    thread.Forwarder? && thread in s.threads && exists p :: p in HeldIn(s.threads[thread]) && p != thread.of
  }

  /** A session of an identifier that a live forwarder watches is that forwarder's own. */
  ghost predicate OwnSessions(s: State) {
    && (forall t :: t in s.threads && t in s.watched && Live(s.threads[t]) && s.watched[t] in s.sessions ==>
          t == Forwarder(s.sessions[s.watched[t]]))
    && (Reader in s.threads && s.threads[Reader].Announcing? && s.threads[Reader].id in s.sessions ==>
          s.sessions[s.threads[Reader].id] == s.threads[Reader].p)
    && (forall t :: t in s.threads && t != Reader && s.threads[t].Wanting? ==>
        t in s.watched && s.watched[t] == s.threads[t].id)
    && Reader !in s.watched
  }

  lemma OwnRegister(s: State, id: string)
    requires Enabled(s, Register(id)) && OwnSessions(s) && !Lingers(s, id)
    ensures OwnSessions(Next(s, Register(id)))
  {
    hide OpenSession;
  }

  lemma OwnAnnounce(s: State, sent: bool)
    requires Enabled(s, Announce(sent)) && OwnSessions(s)
    ensures OwnSessions(Next(s, Announce(sent)))
  {}

  lemma OwnOther(s: State, e: Step)
    requires Enabled(s, e) && !e.Register? && !e.Announce? && OwnSessions(s)
    ensures OwnSessions(Next(s, e))
  {
    hide IsListing;
  }

  lemma OwnStep(s: State, e: Step)
    requires Enabled(s, e) && OwnSessions(s) && (e.Register? ==> !Lingers(s, e.id))
    ensures OwnSessions(Next(s, e))
  {
    hide Enabled, Next, OwnSessions, Lingers;
    if e.Register? {
      OwnRegister(s, e.id);
    } else if e.Announce? {
      OwnAnnounce(s, e.sent);
    } else {
      OwnOther(s, e);
    }
  }

  lemma {:induction false} OwnRun(states: seq<State>, steps: seq<Step>, n: nat)
    requires Path(states, steps) && OwnSessions(states[0]) && Careful(states, steps) && n <= |steps|
    ensures OwnSessions(states[n])
  {
    hide OwnSessions, Next, Enabled, Lingers;
    if n > 0 {
      OwnRun(states, steps, n - 1);
      OwnStep(states[n - 1], steps[n - 1]);
    }
  }

  lemma OwnTake(s: State, thread: Thread)
    requires Enabled(s, Take(thread)) && OwnSessions(s)
    ensures !Foreign(Next(s, Take(thread)), thread)
  {}

  /** From a state in which every live forwarder watches its own session. */
  lemma CarefulPath(states: seq<State>, steps: seq<Step>)
    requires Path(states, steps) && OwnSessions(states[0]) && Careful(states, steps)
    ensures !TakesForeign(states, steps)
  {
    hide OwnSessions, Next, Enabled, Lingers, Foreign;
    forall n | 0 <= n < |steps| && steps[n].Take?
      ensures !Foreign(states[n + 1], steps[n].thread)
    {
      OwnRun(states, steps, n);
      OwnTake(states[n], steps[n].thread);
    }
  }

  lemma OwnInitially()
    ensures OwnSessions(Initial())
  {}

  /** While no session is opened before the forwarder of an earlier one of its name has ended, no forwarder ever
      takes a process that is not its own. */
  lemma ForwardersTakeOwn(states: seq<State>, steps: seq<Step>)
    requires Run(states, steps) && Careful(states, steps)
    ensures !TakesForeign(states, steps)
  {
    hide OwnSessions, Next, Enabled, Lingers, Foreign;
    OwnInitially();
    CarefulPath(states, steps);
  }

  /** The lingering forwarder notices the end of its output and takes the session just opened. */
  lemma LingeringTakes(s: State, id: string) returns (states: seq<State>, steps: seq<Step>)
    requires ThreadShape(s) && OwnSessions(s) && Enabled(s, Register(id)) && Lingers(s, id)
    ensures Path(states, steps) && states[0] == Next(s, Register(id)) && NoRegister(steps) &&
        TakesForeign(states, steps)
  {
    hide OpenSession;
    var t :| t in s.threads && t in s.watched && t != Reader && Live(s.threads[t]) && s.watched[t] == id;
    var s1 := Next(s, Register(id));
    if s.threads[t].Idle? {
      var s2 := Next(s1, WantClose(t, id));
      var s3 := LingeringTake(s2, t, id, Process(s.spawned));
      states, steps := [s1, s2, s3], [WantClose(t, id), Take(t)];
      assert Foreign(states[2], steps[1].thread);
    } else {
      var s2 := LingeringTake(s1, t, id, Process(s.spawned));
      states, steps := [s1, s2], [Take(t)];
      assert Foreign(states[1], steps[0].thread);
    }
  }

  lemma LingeringTake(s: State, t: Thread, id: string, p: Process) returns (after: State)
    requires t.Forwarder? && t.of != p && t in s.threads && s.threads[t] == Wanting(id) && id in s.sessions &&
        s.sessions[id] == p
    ensures Enabled(s, Take(t)) && after == Next(s, Take(t)) && Foreign(after, t)
  {
    after := Next(s, Take(t));
    assert p in HeldIn(after.threads[t]);
  }

  ghost predicate NoRegister(steps: seq<Step>) { forall i :: 0 <= i < |steps| ==> !steps[i].Register? }

  /** The condition is exact: after any such run, opening one more session leads to a foreign process being taken, in
      some continuation that opens nothing else, exactly when a forwarder of that name lingers. */
  lemma ReopenSafeIff(states: seq<State>, steps: seq<Step>, id: string)
    requires Run(states, steps) && Careful(states, steps) && Enabled(states[|steps|], Register(id))
    ensures Lingers(states[|steps|], id) <==>
      exists later: seq<State>, more: seq<Step> ::
        Path(later, more) && later[0] == Next(states[|steps|], Register(id)) && NoRegister(more) &&
            TakesForeign(later, more)
  {
    hide OwnSessions, ThreadShape, Next, Enabled, Lingers, TakesForeign;
    var s := states[|steps|];
    OwnInitially();
    OwnRun(states, steps, |steps|);
    if Lingers(s, id) {
      ThreadShapeRun(states, steps, |steps|);
      var later, more := LingeringTakes(s, id);
    } else {
      OwnRegister(s, id);
      forall later: seq<State>, more: seq<Step> |
        Path(later, more) && later[0] == Next(s, Register(id)) && NoRegister(more)
        ensures !TakesForeign(later, more)
      {
        CarefulPath(later, more);
      }
    }
  }

  lemma ThreadShapeRun(states: seq<State>, steps: seq<Step>, n: nat)
    requires Run(states, steps) && n <= |steps|
    ensures ThreadShape(states[n])
  {
    hide ThreadShape, Next, Enabled;
    var places := RunPlaces(states, steps, n);
  }

  const FIRST := Process(0)
  const SECOND := Process(1)

  /** After session "a" was opened and closed by its client; the forwarder has not noticed yet. */
  function Reopened(): State {
    State(map[], 1, map[Reader := Idle, Forwarder(FIRST) := Idle], map[Forwarder(FIRST) := "a"], [FIRST])
  }

  /** With a reused identifier it can close somebody else's: the forwarder of a closed session, woken by the end of its
      own output, closes the session that was opened under the same name since. */
  lemma ReusedNameClosesOther() returns (states: seq<State>, steps: seq<Step>)
    ensures Run(states, steps)
    ensures steps == [Register("a"), Announce(true), WantClose(Reader, "a"), Take(Reader), CloseOne(Reader)] +
                     [Register("a"), Announce(true), WantClose(Forwarder(FIRST), "a"), Take(Forwarder(FIRST)),
                         CloseOne(Forwarder(FIRST))]
    ensures states[7].sessions == map["a" := SECOND] && states[10].closed == [FIRST, SECOND]
  {
    var s1, s2, s3, s4 := OpenCloseTrace();
    var s6, s7, s8, s9, s10 := StaleTrace();
    hide Enabled, Next, Initial, Reopened;
    states := [Initial(), s1, s2, s3, s4, Reopened(), s6, s7, s8, s9, s10];
    steps := [Register("a"), Announce(true), WantClose(Reader, "a"), Take(Reader), CloseOne(Reader),
              Register("a"), Announce(true), WantClose(Forwarder(FIRST), "a"), Take(Forwarder(FIRST)),
                  CloseOne(Forwarder(FIRST))];
  }

  lemma OpenCloseTrace() returns (s1: State, s2: State, s3: State, s4: State)
    ensures Enabled(Initial(), Register("a")) && s1 == Next(Initial(), Register("a"))
    ensures Enabled(s1, Announce(true)) && s2 == Next(s1, Announce(true))
    ensures Enabled(s2, WantClose(Reader, "a")) && s3 == Next(s2, WantClose(Reader, "a"))
    ensures Enabled(s3, Take(Reader)) && s4 == Next(s3, Take(Reader))
    ensures Enabled(s4, CloseOne(Reader)) && Reopened() == Next(s4, CloseOne(Reader))
  {
    s1, s2 := OpenTrace();
    s3 := Next(s2, WantClose(Reader, "a"));
    s4 := Next(s3, Take(Reader));
    CloseTrace(s4);
  }

  lemma OpenTrace() returns (s1: State, s2: State)
    ensures Enabled(Initial(), Register("a")) && s1 == Next(Initial(), Register("a"))
    ensures Enabled(s1, Announce(true)) && s2 == Next(s1, Announce(true))
    ensures s2 == State(map["a" := FIRST], 1, map[Reader := Idle, Forwarder(FIRST) := Idle],
        map[Forwarder(FIRST) := "a"], [])
  {
    s1 := Next(Initial(), Register("a"));
    s2 := Next(s1, Announce(true));
  }

  lemma CloseTrace(s4: State)
    requires s4.threads == map[Reader := Holding([FIRST], false), Forwarder(FIRST) := Idle]
    requires s4.sessions == map[] && s4.spawned == 1 && s4.watched == map[Forwarder(FIRST) := "a"] && s4.closed == []
    ensures Enabled(s4, CloseOne(Reader)) && Reopened() == Next(s4, CloseOne(Reader))
  {
    assert [FIRST][1..] == [];
    assert Next(s4, CloseOne(Reader)).threads == map[Reader := Idle, Forwarder(FIRST) := Idle];
  }

  lemma StaleTrace() returns (s6: State, s7: State, s8: State, s9: State, s10: State)
    ensures Enabled(Reopened(), Register("a")) && s6 == Next(Reopened(), Register("a"))
    ensures Enabled(s6, Announce(true)) && s7 == Next(s6, Announce(true))
    ensures Enabled(s7, WantClose(Forwarder(FIRST), "a")) && s8 == Next(s7, WantClose(Forwarder(FIRST), "a"))
    ensures Enabled(s8, Take(Forwarder(FIRST))) && s9 == Next(s8, Take(Forwarder(FIRST)))
    ensures Enabled(s9, CloseOne(Forwarder(FIRST))) && s10 == Next(s9, CloseOne(Forwarder(FIRST)))
    ensures s7.sessions == map["a" := SECOND] && s10.closed == [FIRST, SECOND]
  {
    var f := Forwarder(FIRST);
    s6 := Next(Reopened(), Register("a"));
    s7 := Next(s6, Announce(true));
    assert s7.threads[f] == Idle && s7.watched[f] == "a" && s7.sessions == map["a" := SECOND];
    s8 := Next(s7, WantClose(f, "a"));
    s9 := Next(s8, Take(f));
    assert s9.threads[f] == Holding([SECOND], false);
    s10 := Next(s9, CloseOne(f));
    assert s10.closed == [FIRST] + [SECOND];
  }
}
