/** The reload scheduler: one coalescing runner per kind of callback, every critical
    section and every callback start and finish a step of its own. */
module Reload {
  import opened Common
  import opened Sums

  type Callback = nat

  // ---------- the critical sections of one runner ----------

  datatype Runner = Runner(running: bool, pending: bool, callback: Callback)

  const IDLE := Runner(false, false, 0)

  // trigger: the result tells whether the caller has to start the loop.
  function TriggerSection(r: Runner, cb: Callback): (Runner, bool)
  {
    if r.running then (r.(callback := cb, pending := true), false)
    else (r.(callback := cb, running := true), true)
  }

  // The end of one round of the loop: the result tells whether to go round again.
  function CheckSection(r: Runner): (Runner, bool)
  {
    if !r.pending then (r.(running := false), false) else (r.(pending := false), true)
  }

  class ReloadRunner {
    var running: bool
    var pending: bool
    var callback: Callback

    ghost function View(): Runner
      reads this
    {
      Runner(running, pending, callback)
    }

    constructor ()
      ensures View() == IDLE
    {
      running, pending, callback := false, false, 0;
    }

    method Trigger(cb: Callback) returns (spawn: bool)
      modifies this
      ensures (View(), spawn) == TriggerSection(old(View()), cb)
    {
      callback := cb;
      if running {
        pending := true;
        return false;
      }
      running := true;
      return true;
    }

    method Check() returns (again: bool)
      modifies this
      ensures (View(), again) == CheckSection(old(View()))
    {
      if !pending {
        running := false;
        return false;
      }
      pending := false;
      return true;
    }
  }

  // Runners by kind, made on first use.
  class ReloadScheduler {
    var runners: map<string, ReloadRunner>

    constructor ()
      ensures Valid() && runners == map[]
    {
      runners := map[];
    }

    // No two kinds share a runner.
    ghost predicate Valid()
      reads this
    {
      forall k, k' :: k in runners && k' in runners && k != k' ==> runners[k] != runners[k']
    }

    method Trigger(changed: bool, callback: Option<Callback>, name: string) returns (spawn: bool)
      requires Valid()
      modifies this, if name in runners then {runners[name]} else {}
      ensures Valid()
      ensures !changed || callback.None? ==> !spawn && runners == old(runners) && forall k :: k in runners ==> unchanged(runners[k])
      ensures changed && callback.Some? ==>
                && name in runners && (name in old(runners) || fresh(runners[name]))
                && runners == old(runners)[name := runners[name]] && (name in old(runners) ==> runners == old(runners))
                && (runners[name].View(), spawn) ==
                   TriggerSection(if name in old(runners) then old(runners[name].View()) else IDLE, callback.value)
    {
      if !changed || callback.None? {
        return false;
      }
      if name !in runners {
        var r := new ReloadRunner();
        runners := runners[name := r];
      }
      spawn := runners[name].Trigger(callback.value);
    }
  }

  // ---------- all goroutines together ----------

  // A goroutine inside scheduler.trigger: about to look its runner up, about to enter the
  // runner's critical section, about to start the loop, or finished.
  datatype Caller =
    | Entered(kind: string, cb: Callback)
    | Holding(kind: string, runner: nat, cb: Callback)
    | Spawning(kind: string, runner: nat)
    | Returned

  datatype Pc = Top | Ready(cb: Callback) | Running(cb: Callback) | Done | Exited

  datatype Loop = Loop(kind: string, runner: nat, pc: Pc)

  datatype Event =
    | Triggered(runner: nat, cb: Callback)
    | Started(runner: nat, cb: Callback)
    | Finished(runner: nat)

  datatype State = State(
    runners: map<string, nat>, // kind -> index into objects
    objects: seq<Runner>,
    callers: seq<Caller>,
    loops: seq<Loop>,
    log: seq<Event>)

  const INITIAL := State(map[], [], [], [], [])

  datatype Step =
    | Call(kind: string, changed: bool, callback: Option<Callback>)
    | Lookup(i: nat)
    | Section(i: nat)
    | Spawn(i: nat)
    | Read(j: nat)
    | Start(j: nat)
    | Finish(j: nat)
    | Check(j: nat)

  predicate Enabled(s: State, step: Step)
  {
    match step
    case Call(_, _, _) => true
    case Lookup(i) => i < |s.callers| && s.callers[i].Entered?
    case Section(i) => i < |s.callers| && s.callers[i].Holding? && s.callers[i].runner < |s.objects|
    case Spawn(i) => i < |s.callers| && s.callers[i].Spawning?
    case Read(j) => j < |s.loops| && s.loops[j].pc.Top? && s.loops[j].runner < |s.objects|
    case Start(j) => j < |s.loops| && s.loops[j].pc.Ready?
    case Finish(j) => j < |s.loops| && s.loops[j].pc.Running?
    case Check(j) => j < |s.loops| && s.loops[j].pc.Done? && s.loops[j].runner < |s.objects|
  }

  function At(s: State, j: nat, pc: Pc): seq<Loop>
    requires j < |s.loops|
  {
    s.loops[j := s.loops[j].(pc := pc)]
  }

  function Apply(s: State, step: Step): State
    requires Enabled(s, step)
  {
    match step
    case Call(kind, changed, callback) =>
      if changed && callback.Some? then s.(callers := s.callers + [Entered(kind, callback.value)]) else s
    case Lookup(i) =>
      var Entered(kind, cb) := s.callers[i];
      if kind in s.runners then
        s.(callers := s.callers[i := Holding(kind, s.runners[kind], cb)])
      else
        var r := |s.objects|;
        s.(runners := s.runners[kind := r], objects := s.objects + [IDLE], callers := s.callers[i := Holding(kind, r, cb)])
    case Section(i) =>
      var Holding(kind, r, cb) := s.callers[i];
      var (obj, spawn) := TriggerSection(s.objects[r], cb);
      s.(objects := s.objects[r := obj],
         callers := s.callers[i := if spawn then Spawning(kind, r) else Returned],
         log := s.log + [Triggered(r, cb)])
    case Spawn(i) =>
      var Spawning(kind, r) := s.callers[i];
      s.(callers := s.callers[i := Returned], loops := s.loops + [Loop(kind, r, Top)])
    case Read(j) =>
      s.(loops := At(s, j, Ready(s.objects[s.loops[j].runner].callback)))
    case Start(j) =>
      var cb := s.loops[j].pc.cb;
      s.(loops := At(s, j, Running(cb)), log := s.log + [Started(s.loops[j].runner, cb)])
    case Finish(j) =>
      s.(loops := At(s, j, Done), log := s.log + [Finished(s.loops[j].runner)])
    case Check(j) =>
      var r := s.loops[j].runner;
      var (obj, again) := CheckSection(s.objects[r]);
      s.(objects := s.objects[r := obj], loops := At(s, j, if again then Top else Exited))
  }

  // The state a run leads to; None when some step of it was not possible.
  function After(steps: seq<Step>): Option<State>
  {
    if steps == [] then Some(INITIAL)
    else
      var n := |steps| - 1;
      match After(steps[..n])
      case None => None
      case Some(s) => if Enabled(s, steps[n]) then Some(Apply(s, steps[n])) else None
  }

  // ---------- what the log says ----------

  function Triggers(log: seq<Event>, r: nat): nat
  {
    Sum(log, (e: Event) => if e.Triggered? && e.runner == r then 1 else 0)
  }

  function Starts(log: seq<Event>, r: nat): nat
  {
    Sum(log, (e: Event) => if e.Started? && e.runner == r then 1 else 0)
  }

  // The callback of the last trigger, and of the last start, of a runner.
  function LastTriggered(log: seq<Event>, r: nat): Option<Callback>
  {
    if log == [] then None
    else
      var e := log[|log| - 1];
      if e.Triggered? && e.runner == r then Some(e.cb) else LastTriggered(log[..|log| - 1], r)
  }

  function LastStarted(log: seq<Event>, r: nat): Option<Callback>
  {
    if log == [] then None
    else
      var e := log[|log| - 1];
      if e.Started? && e.runner == r then Some(e.cb) else LastStarted(log[..|log| - 1], r)
  }

  ghost predicate NoStartAfter(log: seq<Event>, r: nat, p: nat)
  {
    forall q :: p < q < |log| ==> !(log[q].Started? && log[q].runner == r)
  }

  // Some trigger of r has not been followed by a start.
  ghost predicate Outstanding(log: seq<Event>, r: nat)
  {
    exists p :: 0 <= p < |log| && log[p].Triggered? && log[p].runner == r && NoStartAfter(log, r, p)
  }

  // ---------- the invariant ----------

  // Who currently owns runner r: the caller that will start its loop, or its loop.
  function CallerOwns(r: nat): Caller -> nat
  {
    (c: Caller) => if c.Spawning? && c.runner == r then 1 else 0
  }

  function LoopOwns(r: nat): Loop -> nat
  {
    (l: Loop) => if l.runner == r && !l.pc.Exited? then 1 else 0
  }

  // The owner has not yet started the callback of this round.
  function LoopEarly(r: nat): Loop -> nat
  {
    (l: Loop) => if l.runner == r && (l.pc.Top? || l.pc.Ready?) then 1 else 0
  }

  function Owners(s: State, r: nat): nat
  {
    Sum(s.callers, CallerOwns(r)) + Sum(s.loops, LoopOwns(r))
  }

  function Early(s: State, r: nat): nat
  {
    Sum(s.callers, CallerOwns(r)) + Sum(s.loops, LoopEarly(r))
  }

  ghost predicate Wired(s: State)
  {
    && (forall k :: k in s.runners ==> s.runners[k] < |s.objects|)
    && (forall k, l :: k in s.runners && l in s.runners && k != l ==> s.runners[k] != s.runners[l])
    && (forall i :: 0 <= i < |s.callers| && (s.callers[i].Holding? || s.callers[i].Spawning?) ==>
         s.callers[i].kind in s.runners && s.callers[i].runner == s.runners[s.callers[i].kind])
    && (forall j :: 0 <= j < |s.loops| ==>
         s.loops[j].kind in s.runners && s.loops[j].runner == s.runners[s.loops[j].kind])
    && (forall p :: 0 <= p < |s.log| ==> s.log[p].runner < |s.objects|)
  }

  // The loop of r, when past Top, carries the newest callback unless another round is due.
  ghost predicate UpToDate(s: State, r: nat)
    requires r < |s.objects|
  {
    !s.objects[r].pending ==>
      && (forall j :: 0 <= j < |s.loops| && s.loops[j].runner == r && s.loops[j].pc.Ready? ==>
           s.loops[j].pc.cb == s.objects[r].callback)
      && (Early(s, r) == 0 && LastTriggered(s.log, r).Some? ==> LastStarted(s.log, r) == Some(s.objects[r].callback))
  }

  ghost predicate RunnerInv(s: State, r: nat)
    requires r < |s.objects|
  {
    var o := s.objects[r];
    && Owners(s, r) == (if o.running then 1 else 0)
    && (o.pending ==> o.running)
    && Starts(s.log, r) + Early(s, r) + (if o.pending then 1 else 0) <= Triggers(s.log, r)
    && (Outstanding(s.log, r) ==> o.pending || 0 < Early(s, r))
    && (LastTriggered(s.log, r).Some? ==> LastTriggered(s.log, r) == Some(o.callback))
    && UpToDate(s, r)
  }

  ghost predicate RunnersOk(s: State)
  {
    forall r :: 0 <= r < |s.objects| ==> RunnerInv(s, r)
  }

  ghost predicate Inv(s: State)
  {
    Wired(s) && RunnersOk(s)
  }

  // ---------- how one change moves the counts ----------

  lemma LogGrows(log: seq<Event>, e: Event, r: nat)
    ensures Triggers(log + [e], r) == Triggers(log, r) + (if e.Triggered? && e.runner == r then 1 else 0)
    ensures Starts(log + [e], r) == Starts(log, r) + (if e.Started? && e.runner == r then 1 else 0)
    ensures LastTriggered(log + [e], r) == if e.Triggered? && e.runner == r then Some(e.cb) else LastTriggered(log, r)
    ensures LastStarted(log + [e], r) == if e.Started? && e.runner == r then Some(e.cb) else LastStarted(log, r)
    ensures e.Started? && e.runner == r ==> !Outstanding(log + [e], r)
    ensures Outstanding(log + [e], r) ==> Outstanding(log, r) || (e.Triggered? && e.runner == r)
  {
    SumAppend(log, e, (e: Event) => if e.Triggered? && e.runner == r then 1 else 0);
    SumAppend(log, e, (e: Event) => if e.Started? && e.runner == r then 1 else 0);
    var all := log + [e];
    assert all[..|log|] == log;
    if p :| 0 <= p < |all| && all[p].Triggered? && all[p].runner == r && NoStartAfter(all, r, p) {
      assert p < |log| ==> !(all[|log|].Started? && all[|log|].runner == r);
      assert p < |log| ==> NoStartAfter(log, r, p) by {
        assert forall q :: p < q < |log| ==> log[q] == all[q];
      }
    }
  }

  lemma CallersMove(callers: seq<Caller>, i: nat, c: Caller, r: nat)
    requires i < |callers|
    ensures Sum(callers[i := c], CallerOwns(r)) + CallerOwns(r)(callers[i]) == Sum(callers, CallerOwns(r)) + CallerOwns(r)(c)
  {
    SumUpdate(callers, i, c, CallerOwns(r));
  }

  lemma LoopsMove(loops: seq<Loop>, j: nat, l: Loop, r: nat)
    requires j < |loops|
    ensures Sum(loops[j := l], LoopOwns(r)) + LoopOwns(r)(loops[j]) == Sum(loops, LoopOwns(r)) + LoopOwns(r)(l)
    ensures Sum(loops[j := l], LoopEarly(r)) + LoopEarly(r)(loops[j]) == Sum(loops, LoopEarly(r)) + LoopEarly(r)(l)
  {
    SumUpdate(loops, j, l, LoopOwns(r));
    SumUpdate(loops, j, l, LoopEarly(r));
  }

  // A runner without an owner has no loop on its way.
  lemma NoOwnerNoLoop(s: State, r: nat, j: nat)
    requires Owners(s, r) == 0 && j < |s.loops| && s.loops[j].runner == r
    ensures s.loops[j].pc.Exited?
  {
    SumAtLeast(s.loops, j, LoopOwns(r));
  }

  // Two loops of one runner cannot both be on their way.
  lemma OneLoopAtATime(s: State, r: nat, j: nat, k: nat)
    requires Owners(s, r) <= 1 && j < |s.loops| && k < |s.loops| && j != k
    requires s.loops[j].runner == s.loops[k].runner == r
    ensures s.loops[j].pc.Exited? || s.loops[k].pc.Exited?
  {
    SumAtLeastTwo(s.loops, if j < k then j else k, if j < k then k else j, LoopOwns(r));
  }

  lemma UnusedRunner(s: State, r: nat)
    requires Wired(s) && r >= |s.objects|
    ensures Owners(s, r) == Early(s, r) == Starts(s.log, r) == Triggers(s.log, r) == 0
    ensures LastTriggered(s.log, r) == None && !Outstanding(s.log, r)
  {
    SumZero(s.callers, CallerOwns(r));
    SumZero(s.loops, LoopOwns(r));
    SumZero(s.loops, LoopEarly(r));
    SumZero(s.log, (e: Event) => if e.Triggered? && e.runner == r then 1 else 0);
    SumZero(s.log, (e: Event) => if e.Started? && e.runner == r then 1 else 0);
    NeverTriggered(s.log, r);
  }

  lemma {:induction false} NeverTriggered(log: seq<Event>, r: nat)
    requires forall p :: 0 <= p < |log| ==> log[p].runner != r
    ensures LastTriggered(log, r) == None
  {
    if log != [] {
      NeverTriggered(log[..|log| - 1], r);
    }
  }

  // ---------- every step keeps the invariant ----------

  lemma WiringKept(s: State, step: Step)
    requires Wired(s) && Enabled(s, step)
    ensures Wired(Apply(s, step))
  {
    hide Wired, Apply;
    if step.Call? || step.Lookup? || step.Section? || step.Spawn? {
      CallerWiringKept(s, step);
    } else {
      LoopWiringKept(s, step);
    }
  }

  lemma CallerWiringKept(s: State, step: Step)
    requires Wired(s) && Enabled(s, step) && (step.Call? || step.Lookup? || step.Section? || step.Spawn?)
    ensures Wired(Apply(s, step))
  {
    var s' := Apply(s, step);
    if step.Spawn? {
      assert forall j :: 0 <= j < |s'.loops| - 1 ==> s'.loops[j] == s.loops[j];
    } else if step.Section? {
      assert forall p :: 0 <= p < |s'.log| - 1 ==> s'.log[p] == s.log[p];
    }
  }

  lemma LoopWiringKept(s: State, step: Step)
    requires Wired(s) && Enabled(s, step) && (step.Read? || step.Start? || step.Finish? || step.Check?)
    ensures Wired(Apply(s, step))
  {
    var s' := Apply(s, step);
    if step.Start? || step.Finish? {
      assert forall p :: 0 <= p < |s'.log| - 1 ==> s'.log[p] == s.log[p];
    }
  }

  lemma CallKeeps(s: State, step: Step)
    requires Inv(s) && step.Call? && Enabled(s, step)
    ensures RunnersOk(Apply(s, step))
  {
    if step.changed && step.callback.Some? {
      var c := Entered(step.kind, step.callback.value);
      forall r | 0 <= r < |s.objects|
        ensures RunnerInv(Apply(s, step), r)
      {
        assert RunnerInv(s, r);
        SumAppend(s.callers, c, CallerOwns(r));
      }
    }
  }

  lemma LookupKeeps(s: State, step: Step)
    requires Inv(s) && step.Lookup? && Enabled(s, step)
    ensures RunnersOk(Apply(s, step))
  {
    var s' := Apply(s, step);
    forall r | 0 <= r < |s'.objects|
      ensures RunnerInv(s', r)
    {
      CallersMove(s.callers, step.i, s'.callers[step.i], r);
      if r < |s.objects| {
        assert RunnerInv(s, r);
      } else {
        UnusedRunner(s, r);
        assert forall j :: 0 <= j < |s.loops| ==> s.loops[j].runner != r;
      }
    }
  }

  lemma SectionKeeps(s: State, step: Step)
    requires Inv(s) && step.Section? && Enabled(s, step)
    ensures RunnersOk(Apply(s, step))
  {
    var s' := Apply(s, step);
    var Holding(kind, own, cb) := s.callers[step.i];
    forall r | 0 <= r < |s.objects|
      ensures RunnerInv(s', r)
    {
      assert RunnerInv(s, r);
      CallersMove(s.callers, step.i, s'.callers[step.i], r);
      LogGrows(s.log, Triggered(own, cb), r);
      if r == own && !s.objects[r].running {
        forall j | 0 <= j < |s.loops| && s.loops[j].runner == r
          ensures s.loops[j].pc.Exited?
        {
          NoOwnerNoLoop(s, r, j);
        }
      }
    }
  }

  lemma SpawnKeeps(s: State, step: Step)
    requires Inv(s) && step.Spawn? && Enabled(s, step)
    ensures RunnersOk(Apply(s, step))
  {
    var s' := Apply(s, step);
    var Spawning(kind, own) := s.callers[step.i];
    var l := Loop(kind, own, Top);
    assert forall j :: 0 <= j < |s'.loops| ==> s'.loops[j] == l || (j < |s.loops| && s'.loops[j] == s.loops[j]);
    forall r | 0 <= r < |s.objects|
      ensures RunnerInv(s', r)
    {
      assert RunnerInv(s, r);
      CallersMove(s.callers, step.i, Returned, r);
      SumAppend(s.loops, l, LoopOwns(r));
      SumAppend(s.loops, l, LoopEarly(r));
      assert UpToDate(s', r);
    }
  }

  lemma ReadKeeps(s: State, step: Step)
    requires Inv(s) && step.Read? && Enabled(s, step)
    ensures RunnersOk(Apply(s, step))
  {
    var s' := Apply(s, step);
    forall r | 0 <= r < |s.objects|
      ensures RunnerInv(s', r)
    {
      assert RunnerInv(s, r);
      LoopsMove(s.loops, step.j, s'.loops[step.j], r);
    }
  }

  lemma StartKeeps(s: State, step: Step)
    requires Inv(s) && step.Start? && Enabled(s, step)
    ensures RunnersOk(Apply(s, step))
  {
    var s' := Apply(s, step);
    var own := s.loops[step.j].runner;
    forall r | 0 <= r < |s.objects|
      ensures RunnerInv(s', r)
    {
      assert RunnerInv(s, r);
      LoopsMove(s.loops, step.j, s'.loops[step.j], r);
      LogGrows(s.log, Started(own, s.loops[step.j].pc.cb), r);
    }
  }

  lemma FinishKeeps(s: State, step: Step)
    requires Inv(s) && step.Finish? && Enabled(s, step)
    ensures RunnersOk(Apply(s, step))
  {
    var s' := Apply(s, step);
    forall r | 0 <= r < |s.objects|
      ensures RunnerInv(s', r)
    {
      assert RunnerInv(s, r);
      LoopsMove(s.loops, step.j, s'.loops[step.j], r);
      LogGrows(s.log, Finished(s.loops[step.j].runner), r);
    }
  }

  lemma CheckKeeps(s: State, step: Step)
    requires Inv(s) && step.Check? && Enabled(s, step)
    ensures RunnersOk(Apply(s, step))
  {
    var s' := Apply(s, step);
    var own := s.loops[step.j].runner;
    forall r | 0 <= r < |s.objects|
      ensures RunnerInv(s', r)
    {
      assert RunnerInv(s, r);
      LoopsMove(s.loops, step.j, s'.loops[step.j], r);
      if r == own {
        SumAtLeast(s.loops, step.j, LoopOwns(r));
        forall k | 0 <= k < |s.loops| && k != step.j && s.loops[k].runner == r
          ensures s.loops[k].pc.Exited?
        {
          OneLoopAtATime(s, r, step.j, k);
        }
      }
    }
  }

  lemma StepKeeps(s: State, step: Step)
    requires Inv(s) && Enabled(s, step)
    ensures Inv(Apply(s, step))
  {
    WiringKept(s, step);
    match step
    case Call(_, _, _) => CallKeeps(s, step);
    case Lookup(_) => LookupKeeps(s, step);
    case Section(_) => SectionKeeps(s, step);
    case Spawn(_) => SpawnKeeps(s, step);
    case Read(_) => ReadKeeps(s, step);
    case Start(_) => StartKeeps(s, step);
    case Finish(_) => FinishKeeps(s, step);
    case Check(_) => CheckKeeps(s, step);
  }

  lemma {:induction false} ReachableInv(steps: seq<Step>)
    requires After(steps).Some?
    ensures Inv(After(steps).value)
  {
    if steps != [] {
      ReachableInv(steps[..|steps| - 1]);
      StepKeeps(After(steps[..|steps| - 1]).value, steps[|steps| - 1]);
    }
  }

  // ---------- what follows for every interleaving ----------

  // Two callbacks of one kind never run at the same time.
  lemma NeverOverlaps(steps: seq<Step>, j: nat, k: nat)
    requires After(steps).Some?
    requires var s := After(steps).value; j < |s.loops| && k < |s.loops| && j != k
    requires var s := After(steps).value; s.loops[j].kind == s.loops[k].kind
    ensures var s := After(steps).value; !(s.loops[j].pc.Running? && s.loops[k].pc.Running?)
  {
    ReachableInv(steps);
    var s := After(steps).value;
    var r := s.loops[j].runner;
    assert RunnerInv(s, r);
    OneLoopAtATime(s, r, j, k);
  }

  // Nothing is lost: once a runner is idle, every trigger it ever got was followed by a start,
  // and the last start ran the callback of the last trigger.
  lemma IdleMeansServed(steps: seq<Step>, r: nat)
    requires After(steps).Some? && r < |After(steps).value.objects| && !After(steps).value.objects[r].running
    ensures var log := After(steps).value.log;
            && (forall p :: 0 <= p < |log| && log[p].Triggered? && log[p].runner == r ==>
                 exists q :: p < q < |log| && log[q].Started? && log[q].runner == r)
            && (LastTriggered(log, r).Some? ==> LastStarted(log, r) == LastTriggered(log, r))
  {
    ReachableInv(steps);
    var s := After(steps).value;
    assert RunnerInv(s, r);
    EarlyWithinOwners(s, r);
    assert !Outstanding(s.log, r);
    forall p | 0 <= p < |s.log| && s.log[p].Triggered? && s.log[p].runner == r
      ensures exists q :: p < q < |s.log| && s.log[q].Started? && s.log[q].runner == r
    {
      assert !NoStartAfter(s.log, r, p);
    }
  }

  lemma EarlyWithinOwners(s: State, r: nat)
    ensures Early(s, r) <= Owners(s, r)
  {
    SumMonotone(s.loops, LoopEarly(r), LoopOwns(r));
  }

  // Coalescing never adds work: callbacks started never outnumber triggers.
  lemma StartsWithinTriggers(steps: seq<Step>, r: nat)
    requires After(steps).Some? && r < |After(steps).value.objects|
    ensures Starts(After(steps).value.log, r) <= Triggers(After(steps).value.log, r)
  {
    ReachableInv(steps);
    assert RunnerInv(After(steps).value, r);
  }

  // ---------- finitely many triggers lead to idleness ----------

  function CallerWork(c: Caller): nat
  {
    match c
    case Entered(_, _) => 7
    case Holding(_, _, _) => 6
    case Spawning(_, _) => 5
    case Returned => 0
  }

  function LoopWork(l: Loop): nat
  {
    match l.pc
    case Top => 4
    case Ready(_) => 3
    case Running(_) => 2
    case Done => 1
    case Exited => 0
  }

  function RunnerWork(o: Runner): nat
  {
    if o.pending then 4 else 0
  }

  // A bound on the steps still to come without further calls.
  function Work(s: State): nat
  {
    Sum(s.callers, CallerWork) + Sum(s.loops, LoopWork) + Sum(s.objects, RunnerWork)
  }

  lemma StepWorks(s: State, step: Step)
    requires Enabled(s, step)
    ensures step.Call? ==> Work(Apply(s, step)) <= Work(s) + 7
    ensures !step.Call? ==> Work(Apply(s, step)) < Work(s)
  {
    hide Sum;
    var s' := Apply(s, step);
    match step
    case Call(kind, changed, callback) =>
      if changed && callback.Some? {
        SumAppend(s.callers, Entered(kind, callback.value), CallerWork);
      }
    case Lookup(i) =>
      SumUpdate(s.callers, i, s'.callers[i], CallerWork);
      SumAppend(s.objects, IDLE, RunnerWork);
    case Section(i) =>
      SumUpdate(s.callers, i, s'.callers[i], CallerWork);
      SumUpdate(s.objects, s.callers[i].runner, s'.objects[s.callers[i].runner], RunnerWork);
    case Spawn(i) =>
      SumUpdate(s.callers, i, Returned, CallerWork);
      SumAppend(s.loops, Loop(s.callers[i].kind, s.callers[i].runner, Top), LoopWork);
    case Read(j) => SumUpdate(s.loops, j, s'.loops[j], LoopWork);
    case Start(j) => SumUpdate(s.loops, j, s'.loops[j], LoopWork);
    case Finish(j) => SumUpdate(s.loops, j, s'.loops[j], LoopWork);
    case Check(j) =>
      SumUpdate(s.loops, j, s'.loops[j], LoopWork);
      SumUpdate(s.objects, s.loops[j].runner, s'.objects[s.loops[j].runner], RunnerWork);
  }

  function Calls(steps: seq<Step>): nat
  {
    Sum(steps, (st: Step) => if st.Call? then 1 else 0)
  }

  // However the goroutines interleave, n calls cause at most 7n further steps.
  lemma {:induction false} WorkIsBounded(steps: seq<Step>)
    requires After(steps).Some?
    ensures |steps| + Work(After(steps).value) <= 8 * Calls(steps)
  {
    if steps != [] {
      var n := |steps| - 1;
      WorkIsBounded(steps[..n]);
      StepWorks(After(steps[..n]).value, steps[n]);
    }
  }

  // Nothing ever gets stuck: as long as some runner is busy, a step other than a call is possible.
  lemma BusyCanMove(steps: seq<Step>, r: nat) returns (step: Step)
    requires After(steps).Some? && r < |After(steps).value.objects| && After(steps).value.objects[r].running
    ensures !step.Call? && Enabled(After(steps).value, step)
  {
    ReachableInv(steps);
    var s := After(steps).value;
    assert RunnerInv(s, r);
    if 0 < Sum(s.callers, CallerOwns(r)) {
      var i := SumPositive(s.callers, CallerOwns(r));
      step := Spawn(i);
    } else {
      var j := SumPositive(s.loops, LoopOwns(r));
      match s.loops[j].pc
      case Top => step := Read(j);
      case Ready(_) => step := Start(j);
      case Running(_) => step := Finish(j);
      case Done => step := Check(j);
    }
  }
}
