/**
 * The supervisor always gets on: every run without new events reaches the next start, or after
 * cancellation the end of the loop, within a bound that the state determines.
 */
module SupervisorProgress {
  import opened Supervisor
  import opened SupervisorInvariant
  import opened SupervisorTheorems
  import opened Wrappers

  /** The next start attempt, or after cancellation the end. */
  predicate Arrived(s: State) { if s.cancelled then s.sup == Finished else s.sup == StartRun }

  // ---- How many steps can be left ----

  function StepsToArrive(s: State): nat
  {
    if !s.cancelled then Distance(StartRun, s.sup)
    else if s.sup == Finished then 0
    else Distance(LoopTop, s.sup) + 1
  }

  /** The steps left to a stopper in the call it is in. */
  function StepsLeft(pc: StopPc): nat
  {
    match pc
    case Idle => 0
    case CountReset => 1
    case TimerReset => 2
    case TimerDrain => 3
    case TimerStop => 4
    case StopUnlock => 5
    case StopKill => 6
    case StopFlag => 7
    case StopCheck => 8
    case StopLock => 9
  }

  function AllStepsLeft(stoppers: seq<Stopper>): nat
  {
    if stoppers == [] then 0
    else AllStepsLeft(stoppers[..|stoppers| - 1]) + StepsLeft(stoppers[|stoppers| - 1].pc)
  }

  function Existing(procs: seq<Proc>): nat
  {
    if procs == [] then 0
    else Existing(procs[..|procs| - 1]) + if procs[|procs| - 1].status == Dead then 0 else 1
  }

  /** Arming the timer and starting a process allow for one more step, of the timer and of the process. */
  function Outside(sh: Shared): nat { (if sh.armed then 1 else 0) + Existing(sh.procs) }

  function Measure(s: State): nat
  {
    2 * (StepsToArrive(s) + AllStepsLeft(s.stoppers)) + Outside(s.shared)
  }

  lemma {:induction false} StopperMoved(stoppers: seq<Stopper>, i: nat, stopper: Stopper)
    requires i < |stoppers|
    ensures AllStepsLeft(stoppers[i := stopper])
         == AllStepsLeft(stoppers) - StepsLeft(stoppers[i].pc) + StepsLeft(stopper.pc)
  {
    var n := |stoppers| - 1;
    if i < n {
      StopperMoved(stoppers[..n], i, stopper);
      assert stoppers[i := stopper][..n] == stoppers[..n][i := stopper];
    } else {
      assert stoppers[i := stopper][..n] == stoppers[..n];
    }
  }

  lemma {:induction false} ProcChanged(procs: seq<Proc>, p: nat, proc: Proc)
    requires p < |procs|
    ensures Existing(procs[p := proc])
         == Existing(procs) - (if procs[p].status == Dead then 0 else 1) + (if proc.status == Dead then 0 else 1)
  {
    var n := |procs| - 1;
    if p < n {
      ProcChanged(procs[..n], p, proc);
      assert procs[p := proc][..n] == procs[..n][p := proc];
    } else {
      assert procs[p := proc][..n] == procs[..n];
    }
  }

  lemma ProcAdded(procs: seq<Proc>, proc: Proc)
    ensures Existing(procs + [proc]) <= Existing(procs) + 1
  {
    assert (procs + [proc])[..|procs|] == procs;
  }

  // ---- Every step counts ----

  lemma SupOutside(rules: Rules, s: State, choice: bool, t: State)
    requires SupNext(rules, s, choice) == Some(t)
    ensures Outside(t.shared) <= Outside(s.shared) + 1 && t.cancelled == s.cancelled
    ensures s.sup == LoopTop && s.cancelled ==> t.sup == Finished
  {
    hide Existing;
    ProcAdded(s.shared.procs, Proc(Alive, s.version));
    match s.sup
    case LoopTop =>
    case StartLock =>
    case StartCheck =>
    case StartCreate =>
    case StartFlags =>
    case StartRun =>
    case StartMark =>
    case StartUnlock =>
    case WaitCheck =>
    case WaitClean =>
    case WaitExit =>
    case WaitElapsed =>
    case WaitLock =>
    case WaitClear =>
    case WaitUnlock =>
    case BackoffDelay =>
    case BackoffArm =>
    case BackoffRecv =>
    case BackoffCount =>
    case Finished =>
  }

  lemma ForwardIsCloser(s: State, t: State)
    requires !Arrived(s) && s.sup != Finished && t.cancelled == s.cancelled
    requires if s.cancelled && s.sup == LoopTop then t.sup == Finished else Forward(s.sup, t.sup)
    ensures StepsToArrive(t) < StepsToArrive(s)
  {
  }

  lemma SupLowers(rules: Rules, s: State, choice: bool, t: State)
    requires CmdInv(s) && SupNext(rules, s, choice) == Some(t) && !Arrived(s)
    ensures Measure(t) < Measure(s) && t.cancelled == s.cancelled
  {
    assert s.sup != Finished;
    SupOutside(rules, s, choice, t);
    SupLeavesStoppers(rules, s, choice, t);
    if !(s.sup == LoopTop && s.cancelled) {
      SupForward(rules, s, choice, t);
    }
    hide SupNext, Outside, CmdInv;
    ForwardIsCloser(s, t);
    hide StepsToArrive;
  }

  lemma KillOutside(sh: Shared)
    ensures Outside(Kill(sh)) == Outside(sh)
  {
    hide Existing;
    if sh.cmd.Running? && sh.cmd.pid < |sh.procs| && sh.procs[sh.cmd.pid].status == Alive {
      ProcChanged(sh.procs, sh.cmd.pid, sh.procs[sh.cmd.pid].(status := Killed));
    }
  }

  lemma StopEffect(rules: Rules, s: State, i: nat, t: State)
    requires i < |s.stoppers| && s.stoppers[i].pc != Idle && StopNext(rules, s, i) == Some(t)
    ensures t.stoppers == s.stoppers[i := s.stoppers[i].(pc := t.stoppers[i].pc)]
    ensures StepsLeft(t.stoppers[i].pc) < StepsLeft(s.stoppers[i].pc)
    ensures Outside(t.shared) <= Outside(s.shared) + 1 && t.sup == s.sup && t.cancelled == s.cancelled
  {
    KillOutside(s.shared);
    hide Existing, Kill;
    match s.stoppers[i].pc
    case StopLock =>
    case StopCheck =>
    case StopFlag =>
    case StopKill =>
    case StopUnlock =>
    case TimerStop =>
    case TimerDrain =>
    case TimerReset =>
    case CountReset =>
  }

  lemma StopLowers(rules: Rules, s: State, i: nat, t: State)
    requires i < |s.stoppers| && s.stoppers[i].pc != Idle && StopNext(rules, s, i) == Some(t)
    ensures Measure(t) < Measure(s) && t.cancelled == s.cancelled
  {
    StopEffect(rules, s, i, t);
    StopperMoved(s.stoppers, i, s.stoppers[i].(pc := t.stoppers[i].pc));
    assert StepsToArrive(t) == StepsToArrive(s);
    hide StopNext, Outside, StepsToArrive, AllStepsLeft, StepsLeft;
  }

  /** Every step that is no new event brings the measure down. */
  lemma StepLowers(rules: Rules, s: State, step: Step, t: State)
    requires Inv(s) && Next(rules, s, step) == Some(t) && !IsEvent(s, step) && !Arrived(s)
    ensures Measure(t) < Measure(s) && t.cancelled == s.cancelled
  {
    hide SupNext, StopNext, Existing, AllStepsLeft;
    match step
    case SupStep(choice) => SupLowers(rules, s, choice, t);
    case StopStep(i) => StopLowers(rules, s, i, t);
    case Fire => assert StepsToArrive(t) == StepsToArrive(s);
    case Exit(p) =>
      ProcChanged(s.shared.procs, p, s.shared.procs[p].(status := Dead));
      assert StepsToArrive(t) == StepsToArrive(s);
    case Change =>
    case Cancel =>
  }

  /** And there always is one. */
  lemma SomeStep(rules: Rules, s: State)
    requires Inv(s) && !Arrived(s)
    ensures exists step :: !IsEvent(s, step) && Next(rules, s, step).Some?
  {
    var step;
    if s.cancelled && s.sup == LoopTop {
      step := SupStep(false);
    } else {
      var t;
      step, t := Progress(rules, s, if s.cancelled then LoopTop else StartRun);
    }
    assert !IsEvent(s, step) && Next(rules, s, step).Some?;
  }

  // ---- Every run arrives ----

  predicate Undisturbed(rules: Rules, s: State, steps: seq<Step>)
    decreases |steps|
  {
    steps == []
    || (!IsEvent(s, steps[0])
        && match Next(rules, s, steps[0])
           case None => true
           case Some(t) => Undisturbed(rules, t, steps[1..]))
  }

  /** Some state of the run is one of arrival. */
  predicate ArrivesIn(rules: Rules, s: State, steps: seq<Step>)
    decreases |steps|
  {
    Arrived(s)
    || (steps != []
        && match Next(rules, s, steps[0])
           case None => false
           case Some(t) => ArrivesIn(rules, t, steps[1..]))
  }

  lemma {:induction false} RunCounts(rules: Rules, s: State, steps: seq<Step>, t: State)
    requires Inv(s) && Run(rules, s, steps) == Some(t) && Undisturbed(rules, s, steps)
    requires !ArrivesIn(rules, s, steps)
    ensures |steps| + Measure(t) <= Measure(s) && Inv(t) && !Arrived(t)
    decreases |steps|
  {
    if steps != [] {
      var u := Next(rules, s, steps[0]).value;
      StepInv(rules, s, steps[0], u);
      StepLowers(rules, s, steps[0], u);
      hide Next, Inv, Arrived, Measure, IsEvent;
      RunCounts(rules, u, steps[1..], t);
    }
  }

  lemma NotThere(s: State)
    requires Inv(s) && !Arrived(s)
    ensures Measure(s) > 0
  {
    assert StepsToArrive(s) > 0;
  }

  /**
   * From every reachable state, every run without new events gets to the next start attempt, or after
   * cancellation to the end, within as many steps as the measure says; and a run that has not got there
   * can go on.
   */
  lemma AlwaysArrives(rules: Rules, n: nat, s: State, steps: seq<Step>, t: State)
    requires Reachable(rules, n, s) && Run(rules, s, steps) == Some(t) && Undisturbed(rules, s, steps)
    ensures |steps| >= Measure(s) ==> ArrivesIn(rules, s, steps)
    ensures !ArrivesIn(rules, s, steps) ==> exists step :: !IsEvent(t, step) && Next(rules, t, step).Some?
  {
    ReachableInv(rules, n, s);
    if !ArrivesIn(rules, s, steps) {
      RunCounts(rules, s, steps, t);
      NotThere(t);
      SomeStep(rules, t);
    }
  }
}
