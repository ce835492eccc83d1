/** What the coalescing scheduler buys its callbacks: a reload reads the store and installs
    what it read later, under another lock, and still the installed state catches up. */
module ReloadCatchUp {
  import opened Common
  import opened Reload

  // How far the running callback of the kind has got. Its runner lets one run at a time
  // (Reload.NeverOverlaps). at is the loop that runs it.
  datatype Stage<T> = Resting | Begun(at: nat) | HasRead(at: nat, read: T) | Installed(at: nat)

  // The scheduler, the store, the callback of one kind, and what it has installed. written is
  // how long the scheduler's log was at the last write to the store.
  datatype World<T> = World(sched: State, store: T, written: nat, stage: Stage<T>, live: T)

  datatype Step<T> = Sched(step: Reload.Step) | Write(v: T) | Fetch(read: T) | Install

  function Begins<T>(store: T, live: T): World<T>
  {
    World(INITIAL, store, 0, Resting, live)
  }

  predicate Finishes(s: State, step: Reload.Step, r: nat)
  {
    step.Finish? && step.j < |s.loops| && s.loops[step.j].runner == r
  }

  predicate Starts(s: State, step: Reload.Step, r: nat)
  {
    step.Start? && step.j < |s.loops| && s.loops[step.j].runner == r
  }

  // The runner has started its callback since the last write.
  ghost predicate StartedSince(log: seq<Event>, r: nat, written: nat)
  {
    exists q :: written <= q < |log| && log[q].Started? && log[q].runner == r
  }

  // The callback of runner r reads and installs before it returns. It may read the store part
  // by part, so a reading that a write falls into can be any mixture.
  ghost predicate Can<T>(w: World<T>, step: Step<T>, r: nat)
  {
    match step
    case Sched(st) => Enabled(w.sched, st) && (Finishes(w.sched, st, r) ==> w.stage.Installed?)
    case Write(_) => true
    case Fetch(v) => w.stage.Begun? && (StartedSince(w.sched.log, r, w.written) ==> v == w.store)
    case Install => w.stage.HasRead?
  }

  function Do<T>(w: World<T>, step: Step<T>, r: nat): World<T>
    requires Can(w, step, r)
  {
    match step
    case Sched(st) =>
      w.(sched := Apply(w.sched, st),
         stage := if Starts(w.sched, st, r) then Begun(st.j) else if Finishes(w.sched, st, r) then Resting else w.stage)
    case Write(v) => w.(store := v, written := |w.sched.log|)
    case Fetch(v) => w.(stage := HasRead(w.stage.at, v))
    case Install => w.(stage := Installed(w.stage.at), live := w.stage.read)
  }

  // The world a run leads to; None when some step of it was not possible.
  ghost function Reached<T>(start: World<T>, steps: seq<Step<T>>, r: nat): Option<World<T>>
  {
    if steps == [] then Some(start)
    else
      var n := |steps| - 1;
      match Reached(start, steps[..n], r)
      case None => None
      case Some(w) => if Can(w, steps[n], r) then Some(Do(w, steps[n], r)) else None
  }

  ghost predicate TriggeredSince(log: seq<Event>, r: nat, written: nat)
  {
    exists p :: written <= p < |log| && log[p].Triggered? && log[p].runner == r
  }

  ghost predicate UpToStore<T>(w: World<T>)
  {
    match w.stage
    case Resting => w.live == w.store
    case Begun(_) => true
    case HasRead(_, v) => v == w.store
    case Installed(_) => w.live == w.store
  }

  ghost predicate CallbackRuns<T>(w: World<T>, r: nat)
  {
    w.stage != Resting ==>
      w.stage.at < |w.sched.loops| && w.sched.loops[w.stage.at].runner == r && w.sched.loops[w.stage.at].pc.Running?
  }

  ghost predicate CatchesUp<T>(w: World<T>, r: nat)
  {
    && Inv(w.sched) && CallbackRuns(w, r) && w.written <= |w.sched.log|
    && (StartedSince(w.sched.log, r, w.written) ==> UpToStore(w))
  }

  // A scheduler step adds at most one event, a start or an end of r only where it is one.
  lemma LogAfter(s: State, step: Reload.Step, r: nat)
    requires Enabled(s, step)
    ensures var log, log' := s.log, Apply(s, step).log;
            && (log' == log || (|log'| == |log| + 1 && log'[..|log|] == log))
            && (!Starts(s, step, r) && log' != log ==> !(log'[|log|].Started? && log'[|log|].runner == r))
  {
  }

  lemma LoopsAfter(s: State, step: Reload.Step, r: nat, j: nat)
    requires Enabled(s, step) && j < |s.loops| && s.loops[j].runner == r && s.loops[j].pc.Running?
    requires !Finishes(s, step, r)
    ensures j < |Apply(s, step).loops| && Apply(s, step).loops[j] == s.loops[j]
  {
  }

  lemma SchedKeeps<T>(w: World<T>, st: Reload.Step, r: nat)
    requires CatchesUp(w, r) && Can(w, Sched(st), r)
    ensures CatchesUp(Do(w, Sched(st), r), r)
  {
    hide Inv;
    StepKeeps(w.sched, st);
    LogAfter(w.sched, st, r);
    var w' := Do(w, Sched(st), r);
    if !Starts(w.sched, st, r) {
      if !Finishes(w.sched, st, r) && w.stage != Resting {
        LoopsAfter(w.sched, st, r, w.stage.at);
      }
      if StartedSince(w'.sched.log, r, w.written) {
        var q :| w.written <= q < |w'.sched.log| && w'.sched.log[q].Started? && w'.sched.log[q].runner == r;
        assert w.sched.log[q] == w'.sched.log[q];
      }
    }
  }

  lemma {:induction false} AlwaysCatchesUp<T>(start: World<T>, steps: seq<Step<T>>, r: nat)
    requires start == Begins(start.store, start.live) && Reached(start, steps, r).Some?
    ensures CatchesUp(Reached(start, steps, r).value, r)
  {
    hide Inv;
    if steps == [] {
      ReachableInv([]);
    } else {
      var n := |steps| - 1;
      AlwaysCatchesUp(start, steps[..n], r);
      var w := Reached(start, steps[..n], r).value;
      if steps[n].Sched? {
        SchedKeeps(w, steps[n].step, r);
      }
    }
  }

  // However writes, triggers and reloads interleave: once the runner of the kind is idle and
  // was triggered after the last write to the store, what is installed is what the store holds,
  // although every reload installs what it read some time before.
  lemma IdleMeansInstalled<T>(start: World<T>, steps: seq<Step<T>>, r: nat)
    requires start == Begins(start.store, start.live) && Reached(start, steps, r).Some?
    requires var w := Reached(start, steps, r).value;
             && r < |w.sched.objects| && !w.sched.objects[r].running && TriggeredSince(w.sched.log, r, w.written)
    ensures var w := Reached(start, steps, r).value; w.live == w.store
  {
    AlwaysCatchesUp(start, steps, r);
    var w := Reached(start, steps, r).value;
    IdleServed(w.sched, r, w.written);
    if w.stage != Resting {
      assert RunnerInv(w.sched, r);
      NoOwnerNoLoop(w.sched, r, w.stage.at);
    }
  }

  lemma IdleServed(s: State, r: nat, written: nat)
    requires Inv(s) && r < |s.objects| && !s.objects[r].running && TriggeredSince(s.log, r, written)
    ensures StartedSince(s.log, r, written)
  {
    assert RunnerInv(s, r);
    EarlyWithinOwners(s, r);
    assert !Outstanding(s.log, r);
    var p :| written <= p < |s.log| && s.log[p].Triggered? && s.log[p].runner == r;
    assert !NoStartAfter(s.log, r, p);
  }
}
