/** The worker pool that probes contexts: an unbuffered channel of indices, workers that fill slots of one shared
    slice, and a wait for all of them. A run is any scheduling of the steps below. */
module ProbePool {
  import opened Text

  datatype Worker = Idle | Probing(index: nat) | Finished

  datatype Outcome = Outcome(name: string, status: string)

  datatype State = State(next: nat, closed: bool, workers: seq<Worker>, slots: seq<Option<Outcome>>, started: seq<nat>)

  function Initial(contexts: seq<string>, workers: nat): State {
    State(0, false, seq(workers, _ => Idle), seq(|contexts|, _ => None), [])
  }

  datatype Step =
    | Hand(w: nat)                  // the producer hands its next index to a waiting worker
    | Fill(w: nat, status: string)  // a worker stores the result of its probe
    | Close                         // the producer has no index left
    | Leave(w: nat)                 // a waiting worker sees the closed channel

  predicate Enabled(s: State, e: Step) {
    match e
    case Hand(w) => s.next < |s.slots| && !s.closed && w < |s.workers| && s.workers[w].Idle?
    case Fill(w, _) => w < |s.workers| && s.workers[w].Probing? && s.workers[w].index < |s.slots|
    case Close => s.next == |s.slots| && !s.closed
    case Leave(w) => s.closed && w < |s.workers| && s.workers[w].Idle?
  }

  function Next(contexts: seq<string>, s: State, e: Step): State
    requires Enabled(s, e) && |contexts| == |s.slots|
  {
    match e
    case Hand(w) => s.(next := s.next + 1, workers := s.workers[w := Probing(s.next)], started := s.started + [s.next])
    case Fill(w, status) =>
      var i := s.workers[w].index;
      s.(workers := s.workers[w := Idle], slots := s.slots[i := Some(Outcome(contexts[i], status))])
    case Close => s.(closed := true)
    case Leave(w) => s.(workers := s.workers[w := Finished])
  }

  /** Every index handed out is with one worker or its slot is filled, for the right context. */
  ghost predicate Sound(contexts: seq<string>, s: State) {
    && |s.slots| == |contexts| && s.next <= |s.slots| && (s.closed ==> s.next == |s.slots|)
    && |s.started| == s.next && (forall k :: 0 <= k < s.next ==> s.started[k] == k)
    && (forall i :: 0 <= i < |s.slots| && s.slots[i].Some? ==> i < s.next && s.slots[i].value.name == contexts[i])
    && (forall w :: 0 <= w < |s.workers| && s.workers[w].Probing? ==>
        s.workers[w].index < s.next && s.slots[s.workers[w].index].None?)
    && (forall w, v :: 0 <= w < v < |s.workers| && s.workers[w].Probing? && s.workers[v].Probing? ==>
        s.workers[w].index != s.workers[v].index)
    && (forall i :: 0 <= i < s.next ==> s.slots[i].Some? || InHand(s, i))
    && (forall w :: 0 <= w < |s.workers| && s.workers[w].Finished? ==> s.closed)
  }

  ghost predicate InHand(s: State, i: nat) { exists w :: 0 <= w < |s.workers| && s.workers[w] == Probing(i) }

  lemma HandedStay(s: State, t: State, w: nat)
    requires w < |s.workers| && |t.workers| == |s.workers|
    requires forall v :: 0 <= v < |s.workers| && v != w ==> t.workers[v] == s.workers[v]
    requires s.workers[w].Probing? ==> t.workers[w] == s.workers[w]
    ensures forall i :: InHand(s, i) ==> InHand(t, i)
  {
    forall i | InHand(s, i) ensures InHand(t, i) {
      var v :| 0 <= v < |s.workers| && s.workers[v] == Probing(i);
      assert t.workers[v] == Probing(i);
    }
  }

  lemma HandKeeps(contexts: seq<string>, s: State, w: nat)
    requires Sound(contexts, s) && Enabled(s, Hand(w))
    ensures Sound(contexts, Next(contexts, s, Hand(w)))
  {
    var t := Next(contexts, s, Hand(w));
    HandedStay(s, t, w);
    assert t.workers[w] == Probing(s.next);
    assert InHand(t, s.next);
  }

  lemma FillKeeps(contexts: seq<string>, s: State, w: nat, status: string)
    requires Sound(contexts, s) && Enabled(s, Fill(w, status))
    ensures Sound(contexts, Next(contexts, s, Fill(w, status)))
  {
    var t := Next(contexts, s, Fill(w, status));
    var done := s.workers[w].index;
    forall i | 0 <= i < t.next ensures t.slots[i].Some? || InHand(t, i) {
      if i != done && s.slots[i].None? {
        var v :| 0 <= v < |s.workers| && s.workers[v] == Probing(i);
        assert t.workers[v] == Probing(i);
      }
    }
  }

  lemma LeaveKeeps(contexts: seq<string>, s: State, w: nat)
    requires Sound(contexts, s) && Enabled(s, Leave(w))
    ensures Sound(contexts, Next(contexts, s, Leave(w)))
  {
    HandedStay(s, Next(contexts, s, Leave(w)), w);
  }

  lemma CloseKeeps(contexts: seq<string>, s: State)
    requires Sound(contexts, s) && Enabled(s, Close)
    ensures Sound(contexts, Next(contexts, s, Close))
  {
    var t := Next(contexts, s, Close);
    forall i | InHand(s, i) ensures InHand(t, i) {
      var v :| 0 <= v < |s.workers| && s.workers[v] == Probing(i);
      assert t.workers[v] == Probing(i);
    }
  }

  ghost predicate Run(contexts: seq<string>, workers: nat, states: seq<State>, steps: seq<Step>) {
    && |states| == |steps| + 1 && states[0] == Initial(contexts, workers)
    && forall i :: 0 <= i < |steps| ==>
      |states[i].slots| == |contexts| && Enabled(states[i], steps[i]) &&
          states[i + 1] == Next(contexts, states[i], steps[i])
  }

  lemma SoundInitially(contexts: seq<string>, workers: nat)
    ensures Sound(contexts, Initial(contexts, workers))
  {}

  lemma {:induction false} RunSound(contexts: seq<string>, workers: nat, states: seq<State>, steps: seq<Step>, n: nat)
    requires Run(contexts, workers, states, steps) && n <= |steps|
    ensures Sound(contexts, states[n]) && |states[n].workers| == workers
  {
    hide Sound;
    if n == 0 {
      SoundInitially(contexts, workers);
    } else {
      RunSound(contexts, workers, states, steps, n - 1);
      var s := states[n - 1];
      hide Next, Enabled;
      assert |states[n].workers| == workers by { WorkersStay(contexts, s, steps[n - 1]); }
      match steps[n - 1] {
        case Hand(w) => HandKeeps(contexts, s, w);
        case Fill(w, status) => FillKeeps(contexts, s, w, status);
        case Close => CloseKeeps(contexts, s);
        case Leave(w) => LeaveKeeps(contexts, s, w);
      }
    }
  }

  lemma WorkersStay(contexts: seq<string>, s: State, e: Step)
    requires Enabled(s, e) && |contexts| == |s.slots|
    ensures |Next(contexts, s, e).workers| == |s.workers|
  {}

  ghost predicate AllFinished(s: State) { forall w :: 0 <= w < |s.workers| ==> s.workers[w].Finished? }

  /** For any contexts, at least one worker and any scheduling: indices are probed once each and in order, no two
      workers ever probe the same one, a filled slot belongs to its context, and once all workers have finished every
      slot is filled. */
  lemma EverySlotFilledOnce(contexts: seq<string>, workers: nat, states: seq<State>, steps: seq<Step>, n: nat)
    requires Run(contexts, workers, states, steps) && n <= |steps| && workers >= 1
    ensures var s := states[n];
      && (forall i, j :: 0 <= i < j < |s.started| ==> s.started[i] != s.started[j])
      && (forall w, v :: 0 <= w < v < |s.workers| && s.workers[w].Probing? && s.workers[v].Probing? ==>
            s.workers[w].index != s.workers[v].index)
      && |s.slots| == |contexts|
      && (forall i :: 0 <= i < |contexts| && s.slots[i].Some? ==> s.slots[i].value.name == contexts[i])
      && (AllFinished(s) ==> |s.started| == |contexts| && forall i :: 0 <= i < |contexts| ==> s.slots[i].Some?)
  {
    RunSound(contexts, workers, states, steps, n);
    hide Run;
    var s := states[n];
    if AllFinished(s) {
      assert s.workers[0].Finished?;
      assert forall i: nat :: !InHand(s, i);
    }
  }

  /** Steps a worker still has before it: filling a slot, then leaving. */
  function Weight(w: Worker): nat { match w case Idle => 1 case Probing(_) => 2 case Finished => 0 }

  function Load(workers: seq<Worker>): nat {
    if workers == [] then 0 else Load(workers[..|workers| - 1]) + Weight(workers[|workers| - 1])
  }

  function Remaining(s: State): int { 2 * (|s.slots| - s.next) + Load(s.workers) + if s.closed then 0 else 1 }

  lemma {:induction false} LoadUpdate(workers: seq<Worker>, w: nat, x: Worker)
    requires w < |workers|
    ensures Load(workers[w := x]) == Load(workers) - Weight(workers[w]) + Weight(x)
  {
    var n := |workers| - 1;
    if w < n {
      LoadUpdate(workers[..n], w, x);
      assert workers[w := x][..n] == workers[..n][w := x];
    } else {
      assert workers[w := x][..n] == workers[..n];
    }
  }

  /** Every step uses up some of what remains, and until all workers have finished some step is possible: no
      scheduling can get stuck or go on forever. */
  lemma PoolTerminates(contexts: seq<string>, s: State, e: Step)
    requires Sound(contexts, s)
    ensures Remaining(s) >= 0
    ensures Enabled(s, e) ==> Remaining(Next(contexts, s, e)) == Remaining(s) - 1
    ensures !AllFinished(s) ==> exists step :: Enabled(s, step)
  {
    if Enabled(s, e) {
      match e {
        case Hand(w) => LoadUpdate(s.workers, w, Probing(s.next));
        case Fill(w, _) => LoadUpdate(s.workers, w, Idle);
        case Close =>
        case Leave(w) => LoadUpdate(s.workers, w, Finished);
      }
    }
    if !AllFinished(s) {
      var w :| 0 <= w < |s.workers| && !s.workers[w].Finished?;
      if s.workers[w].Probing? {
        assert Enabled(s, Fill(w, ""));
      } else if s.closed {
        assert Enabled(s, Leave(w));
      } else if s.next < |s.slots| {
        assert Enabled(s, Hand(w));
      } else {
        assert Enabled(s, Close);
      }
    }
  }
}
