/**
 * What the supervisor guarantees over every run, for any number of stoppers and both timer rules.
 */
module SupervisorTheorems {
  import opened Supervisor
  import opened SupervisorInvariant
  import opened Wrappers

  // ---- Runs ----

  lemma {:induction false} RunAppend(rules: Rules, s: State, first: seq<Step>, t: State, step: Step)
    requires Run(rules, s, first) == Some(t)
    ensures Run(rules, s, first + [step]) == Next(rules, t, step)
    decreases |first|
  {
    if first == [] {
      assert first + [step] == [step];
    } else {
      assert (first + [step])[1..] == first[1..] + [step];
      RunAppend(rules, Next(rules, s, first[0]).value, first[1..], t, step);
    }
  }

  lemma ReachableStep(rules: Rules, n: nat, s: State, step: Step)
    requires Reachable(rules, n, s) && Next(rules, s, step).Some?
    ensures Reachable(rules, n, Next(rules, s, step).value)
  {
    var steps :| Run(rules, Init(n), steps) == Some(s);
    RunAppend(rules, Init(n), steps, s, step);
  }

  lemma InitReachable(rules: Rules, n: nat)
    ensures Reachable(rules, n, Init(n))
  {
    assert Run(rules, Init(n), []) == Some(Init(n));
  }

  lemma {:induction false} RunConcat(rules: Rules, s: State, first: seq<Step>, t: State, second: seq<Step>)
    requires Run(rules, s, first) == Some(t)
    ensures Run(rules, s, first + second) == Run(rules, t, second)
    decreases |first|
  {
    if first == [] {
      assert first + second == second;
    } else {
      RunConcat(rules, Next(rules, s, first[0]).value, first[1..], t, second);
      assert (first + second)[1..] == first[1..] + second;
    }
  }

  lemma ReachableRun(rules: Rules, n: nat, s: State, steps: seq<Step>, t: State)
    requires Reachable(rules, n, s) && Run(rules, s, steps) == Some(t)
    ensures Reachable(rules, n, t)
  {
    var first :| Run(rules, Init(n), first) == Some(s);
    RunConcat(rules, Init(n), first, s, steps);
  }

  lemma Extend(rules: Rules, s: State, steps: seq<Step>, t: State, step: Step) returns (steps': seq<Step>, t': State)
    requires Run(rules, s, steps) == Some(t) && Next(rules, t, step).Some?
    ensures steps' == steps + [step] && Run(rules, s, steps') == Some(t') && t' == Next(rules, t, step).value
  {
    RunAppend(rules, s, steps, t, step);
    steps', t' := steps + [step], Next(rules, t, step).value;
  }

  lemma NoSteps(rules: Rules, s: State)
    ensures Run(rules, s, []) == Some(s)
  {
  }

  // ---- One process at a time ----

  /** At most one process runs, and it is that of fb.cmd: any other has been killed or is gone. */
  lemma AtMostOneRunning(rules: Rules, n: nat, s: State, p: nat, q: nat)
    requires Reachable(rules, n, s) && p < |s.shared.procs| && q < |s.shared.procs|
    ensures s.shared.procs[p].status == Alive && s.shared.procs[q].status == Alive ==> p == q
    ensures s.shared.cmd != Running(p) ==> s.shared.procs[p].status.Killed? || s.shared.procs[p].status.Dead?
  {
    ReachableInv(rules, n, s);
    assert IsAlive(s.shared, p) ==> s.shared.cmd == Running(p);
    assert IsAlive(s.shared, q) ==> s.shared.cmd == Running(q);
  }

  /**
   * When Wait is about to drop fb.cmd nothing runs any more, although it may have skipped cmd.Wait on
   * an unlocked read of cleanStop; and Wait never reads a nil command.
   */
  lemma WaitIsSafe(rules: Rules, n: nat, s: State)
    requires Reachable(rules, n, s)
    ensures s.sup.WaitClear? ==> forall p: nat :: p < |s.shared.procs| ==> s.shared.procs[p].status != Alive
    ensures s.sup.WaitClean? || s.sup.WaitExit? ==> s.shared.cmd.Running?
  {
    ReachableInv(rules, n, s);
    forall p: nat | s.sup.WaitClear? && p < |s.shared.procs|
      ensures s.shared.procs[p].status != Alive
    {
      assert !IsAlive(s.shared, p);
    }
  }

  /**
   * Wait may get past the exit while the process still runs, but only between a stopper's flag and its
   * kill, and the mutex that stopper holds then keeps Wait from dropping fb.cmd.
   */
  lemma LockWaitsForKill(rules: Rules, n: nat, s: State, choice: bool)
    requires Reachable(rules, n, s) && s.sup.WaitLock? && s.shared.cmd.Running? && IsAlive(s.shared, s.shared.cmd.pid)
    ensures s.mutex.Stop? && s.mutex.id < |s.stoppers| && s.stoppers[s.mutex.id].pc == StopKill
    ensures SupNext(rules, s, choice) == None
  {
    ReachableInv(rules, n, s);
  }

  // ---- The timer ----

  /** While backoff waits, the timer is armed, or the tick is there, or a resetter is about to re-arm it. */
  lemma TimerNeverDead(rules: Rules, n: nat, s: State)
    requires Reachable(rules, n, s) && s.sup == BackoffRecv
    ensures s.shared.armed || s.shared.tick || exists i: nat :: i < |s.stoppers| && s.stoppers[i].pc == TimerReset
  {
    ReachableInv(rules, n, s);
    if !s.shared.armed && !s.shared.tick {
      var i: nat :| ResetPending(s, i);
      assert i < |s.stoppers| && s.stoppers[i].pc == TimerReset;
    }
  }

  // ---- Restart freshness ----

  /** Every running process has number `base` or above and was started with at least version v. */
  ghost predicate LaterOnly(s: State, base: nat, v: nat)
  {
    && base <= |s.shared.procs| && v <= s.version
    && forall p: nat :: IsAlive(s.shared, p) ==> base <= p && v <= s.shared.procs[p].version
  }

  lemma LaterOnlyStep(rules: Rules, s: State, step: Step, s': State, base: nat, v: nat)
    requires LaterOnly(s, base, v) && Next(rules, s, step) == Some(s')
    ensures LaterOnly(s', base, v)
  {
    match step
    case SupStep(choice) =>
      match s.sup {
        case LoopTop =>
        case StartLock =>
        case StartCheck =>
        case StartCreate =>
        case StartFlags =>
        case StartRun =>
        case StartMark =>
        case StartUnlock =>
        case WaitCheck =>
        case WaitClean =>
        case WaitExit =>
        case WaitElapsed =>
        case WaitLock =>
        case WaitClear =>
        case WaitUnlock =>
        case BackoffDelay =>
        case BackoffArm =>
        case BackoffRecv =>
        case BackoffCount =>
      }
    case StopStep(i) => StopFrame(rules, s, i, s'); StopKeepsCount(rules, s, i, s');
    case Fire =>
    case Exit(p) =>
    case Change =>
    case Cancel =>
  }

  lemma StopKeepsCount(rules: Rules, s: State, i: nat, s': State)
    requires i < |s.stoppers| && StopNext(rules, s, i) == Some(s')
    ensures |s'.shared.procs| == |s.shared.procs| && s'.version == s.version
    ensures forall p: nat :: p < |s.shared.procs| ==> s'.shared.procs[p].version == s.shared.procs[p].version
  {
    match s.stoppers[i].pc
    case Idle =>
    case StopLock =>
    case StopCheck =>
    case StopFlag =>
    case StopKill =>
    case StopUnlock =>
    case TimerStop =>
    case TimerDrain =>
    case TimerReset =>
    case CountReset =>
  }

  lemma {:induction false} LaterOnlyRun(rules: Rules, s: State, steps: seq<Step>, s': State, base: nat, v: nat)
    requires LaterOnly(s, base, v) && Run(rules, s, steps) == Some(s')
    ensures LaterOnly(s', base, v)
    decreases |steps|
  {
    if steps != [] {
      var t := Next(rules, s, steps[0]).value;
      LaterOnlyStep(rules, s, steps[0], t, base, v);
      LaterOnlyRun(rules, t, steps[1..], s', base, v);
    }
  }

  /**
   * When the critical section of a Stop ends, nothing runs; and ever after, whatever runs was started
   * later, with a configuration at least as recent as the event that Stop was serving.
   */
  lemma RestartIsFresh(rules: Rules, n: nat, s: State, i: nat, steps: seq<Step>, s': State, p: nat)
    requires Reachable(rules, n, s) && i < |s.stoppers| && s.stoppers[i].pc == StopUnlock
    requires Run(rules, s, steps) == Some(s')
    ensures p < |s.shared.procs| ==> s.shared.procs[p].status != Alive
    ensures p < |s'.shared.procs| && s'.shared.procs[p].status == Alive
        ==> p >= |s.shared.procs| && s'.shared.procs[p].version >= s.stoppers[i].seen
  {
    ReachableInv(rules, n, s);
    assert StopperInv(s, i);
    assert p < |s.shared.procs| ==> !IsAlive(s.shared, p);
    LaterOnlyRun(rules, s, steps, s', |s.shared.procs|, s.version);
    assert IsAlive(s'.shared, p) ==> p >= |s.shared.procs|;
  }

  /** The running process is at least as recent as every event whose Stop has completed. */
  lemma RunningIsFresh(rules: Rules, n: nat, s: State, p: nat)
    requires Reachable(rules, n, s) && p < |s.shared.procs| && s.shared.procs[p].status == Alive
    ensures s.served <= s.shared.procs[p].version <= s.version
  {
    ReachableInv(rules, n, s);
    assert IsAlive(s.shared, p);
  }

  // ---- Nothing gets stuck ----

  /** Where the supervisor is in its loop. */
  function Position(pc: SupPc): nat
  {
    match pc
    case LoopTop => 0
    case StartLock => 1
    case StartCheck => 2
    case StartCreate => 3
    case StartFlags => 4
    case StartRun => 5
    case StartMark => 6
    case StartUnlock => 7
    case WaitCheck => 8
    case WaitClean => 9
    case WaitExit => 10
    case WaitElapsed => 11
    case WaitLock => 12
    case WaitClear => 13
    case WaitUnlock => 14
    case BackoffDelay => 15
    case BackoffArm => 16
    case BackoffRecv => 17
    case BackoffCount => 18
    case Finished => 0
  }

  /** How far the supervisor is from the goal, going round the loop. */
  function Distance(goal: SupPc, pc: SupPc): nat
  {
    if Position(pc) <= Position(goal) then Position(goal) - Position(pc) else 19 + Position(goal) - Position(pc)
  }

  /** The points of the loop that are shown to be reachable from everywhere before. */
  predicate IsGoal(pc: SupPc) { pc.StartRun? || pc.BackoffArm? || pc.LoopTop? }

  /** The goal lies ahead: the loop is still running, and after cancellation its top is not in between. */
  predicate Ahead(goal: SupPc, s: State)
  {
    && s.sup != Finished
    && (s.cancelled && goal != LoopTop ==> 0 < Position(s.sup) <= Position(goal))
  }

  /** How much the others have to do before the supervisor can move. */
  function Waiting(s: State): (w: nat)
    ensures w <= 4
  {
    match s.sup
    case StartLock => HolderDistance(s)
    case WaitLock => HolderDistance(s)
    case WaitExit => if HasExited(s.shared) then 0 else 1
    case BackoffRecv => if s.shared.tick then 0 else if s.shared.armed then 1 else 2
    case _ => 0
  }

  function HolderDistance(s: State): nat
  {
    if s.mutex.Stop? && s.mutex.id < |s.stoppers| then
      match s.stoppers[s.mutex.id].pc
      case StopCheck => 4
      case StopFlag => 3
      case StopKill => 2
      case StopUnlock => 1
      case _ => 0
    else 0
  }

  function Rank(goal: SupPc, s: State): nat { 5 * Distance(goal, s.sup) + Waiting(s) }

  /** Something new: a change of the configuration, cancellation, or a stopper being called. */
  predicate IsEvent(s: State, step: Step)
  {
    match step
    case Change => true
    case Cancel => true
    case StopStep(i) => i < |s.stoppers| && s.stoppers[i].pc == Idle
    case _ => false
  }

  /** The step is not one of a stopper that waits for a tick. */
  predicate LeavesDrainers(s: State, step: Step)
  {
    step.StopStep? ==> step.id < |s.stoppers| && s.stoppers[step.id].pc != TimerDrain
  }

  /** A step of the supervisor or of whoever it is waiting for, that brings the goal closer. */
  lemma Progress(rules: Rules, s: State, goal: SupPc) returns (step: Step, s': State)
    requires Inv(s) && IsGoal(goal) && Ahead(goal, s) && s.sup != goal
    ensures Next(rules, s, step) == Some(s') && LeavesDrainers(s, step) && !IsEvent(s, step)
    ensures Rank(goal, s') < Rank(goal, s) && Ahead(goal, s') && s'.cancelled == s.cancelled
  {
    if Waiting(s) == 0 {
      step := SupStep(false);
      SupCanMove(rules, s, goal);
      s' := SupNext(rules, s, false).value;
    } else {
      step, s' := OthersMove(rules, s);
    }
    hide SupNext, StopNext, Inv, Waiting, Distance;
  }

  /** Whoever the supervisor is waiting for can move. */
  lemma OthersMove(rules: Rules, s: State) returns (step: Step, s': State)
    requires Inv(s) && Waiting(s) > 0
    ensures Next(rules, s, step) == Some(s') && LeavesDrainers(s, step) && !IsEvent(s, step)
    ensures s'.sup == s.sup && Waiting(s') < Waiting(s) && s'.cancelled == s.cancelled
  {
    if s.sup == StartLock || s.sup == WaitLock {
      step := StopStep(s.mutex.id);
      HolderCanMove(rules, s);
    } else if s.sup == WaitExit {
      step := Exit(s.shared.cmd.pid);
    } else if s.shared.armed {
      step := Fire;
    } else {
      var i: nat :| ResetPending(s, i);
      step := StopStep(i);
    }
    s' := Next(rules, s, step).value;
  }

  lemma SupEnabled(rules: Rules, s: State)
    requires MutexInv(s) && s.sup != Finished && Waiting(s) == 0
    ensures SupNext(rules, s, false).Some?
  {
    match s.sup
    case LoopTop =>
    case StartLock =>
    case StartCheck =>
    case StartCreate =>
    case StartFlags =>
    case StartRun =>
    case StartMark =>
    case StartUnlock =>
    case WaitCheck =>
    case WaitClean =>
    case WaitExit =>
    case WaitElapsed =>
    case WaitLock =>
    case WaitClear =>
    case WaitUnlock =>
    case BackoffDelay =>
    case BackoffArm =>
    case BackoffRecv =>
    case BackoffCount =>
    case Finished =>
  }

  /** A step forward in the loop passes over no goal. */
  predicate Forward(from: SupPc, to: SupPc)
  {
    && to != Finished
    && if from == BackoffCount then to == LoopTop
       else
         && Position(from) < Position(to)
         && (Position(from) < 5 ==> Position(to) <= 5) && (Position(from) < 16 ==> Position(to) <= 16)
  }

  lemma SupForward(rules: Rules, s: State, choice: bool, s': State)
    requires CmdInv(s) && SupNext(rules, s, choice) == Some(s') && (s.sup == LoopTop ==> !s.cancelled)
    ensures Forward(s.sup, s'.sup) && s'.cancelled == s.cancelled
  {
    match s.sup
    case LoopTop =>
    case StartLock =>
    case StartCheck =>
    case StartCreate =>
    case StartFlags =>
    case StartRun =>
    case StartMark =>
    case StartUnlock =>
    case WaitCheck =>
    case WaitClean =>
    case WaitExit =>
    case WaitElapsed =>
    case WaitLock =>
    case WaitClear =>
    case WaitUnlock =>
    case BackoffDelay =>
    case BackoffArm =>
    case BackoffRecv =>
    case BackoffCount =>
    case Finished =>
  }

  lemma SupAdvances(rules: Rules, s: State, goal: SupPc, s': State)
    requires CmdInv(s) && IsGoal(goal) && Ahead(goal, s) && s.sup != goal && SupNext(rules, s, false) == Some(s')
    ensures Ahead(goal, s') && s'.cancelled == s.cancelled && Distance(goal, s'.sup) < Distance(goal, s.sup)
  {
    SupForward(rules, s, false, s');
    hide SupNext, CmdInv;
  }

  lemma SupCanMove(rules: Rules, s: State, goal: SupPc)
    requires Inv(s) && IsGoal(goal) && Ahead(goal, s) && s.sup != goal && Waiting(s) == 0
    ensures SupNext(rules, s, false).Some?
    ensures var s' := SupNext(rules, s, false).value;
            Ahead(goal, s') && s'.cancelled == s.cancelled && Distance(goal, s'.sup) < Distance(goal, s.sup)
  {
    assert s.sup != Finished;
    hide SupNext, MutexInv, CmdInv, ProcInv, StopInv, TimerInv, FreshInv, CountInv;
    SupEnabled(rules, s);
    SupAdvances(rules, s, goal, SupNext(rules, s, false).value);
  }

  lemma HolderCanMove(rules: Rules, s: State)
    requires Inv(s) && s.mutex.Stop? && HolderDistance(s) > 0
    ensures StopNext(rules, s, s.mutex.id).Some?
    ensures HolderDistance(StopNext(rules, s, s.mutex.id).value) < HolderDistance(s)
    ensures StopNext(rules, s, s.mutex.id).value.sup == s.sup
    ensures StopNext(rules, s, s.mutex.id).value.cancelled == s.cancelled
  {
  }

  lemma SupLeavesStoppers(rules: Rules, s: State, choice: bool, s': State)
    requires SupNext(rules, s, choice) == Some(s')
    ensures s'.stoppers == s.stoppers
  {
    match s.sup
    case LoopTop =>
    case StartLock =>
    case StartCheck =>
    case StartCreate =>
    case StartFlags =>
    case StartRun =>
    case StartMark =>
    case StartUnlock =>
    case WaitCheck =>
    case WaitClean =>
    case WaitExit =>
    case WaitElapsed =>
    case WaitLock =>
    case WaitClear =>
    case WaitUnlock =>
    case BackoffDelay =>
    case BackoffArm =>
    case BackoffRecv =>
    case BackoffCount =>
    case Finished =>
  }

  /** Only its own steps move a stopper. */
  lemma StoppersKept(rules: Rules, s: State, step: Step, s': State)
    requires Next(rules, s, step) == Some(s')
    ensures |s'.stoppers| == |s.stoppers|
    ensures forall i: nat :: i < |s.stoppers| && step != StopStep(i) ==> s'.stoppers[i] == s.stoppers[i]
  {
    match step
    case SupStep(choice) => SupLeavesStoppers(rules, s, choice, s');
    case StopStep(j) => StopFrame(rules, s, j, s');
    case _ =>
  }

  /** The stoppers that wait for a tick in s still do in s'. */
  ghost predicate DrainersKept(s: State, s': State)
  {
    && |s'.stoppers| == |s.stoppers|
    && forall i: nat :: i < |s.stoppers| && s.stoppers[i].pc == TimerDrain ==> s'.stoppers[i] == s.stoppers[i]
  }

  /** The supervisor can get to a goal that lies ahead, without a step of a stopper that waits for a tick. */
  lemma {:induction false} CanReach(rules: Rules, s: State, goal: SupPc) returns (steps: seq<Step>, s': State)
    requires Inv(s) && IsGoal(goal) && Ahead(goal, s)
    ensures Run(rules, s, steps) == Some(s') && Inv(s') && s'.sup == goal
    ensures s'.cancelled == s.cancelled && DrainersKept(s, s')
    decreases Rank(goal, s)
  {
    if s.sup == goal {
      return [], s;
    }
    var step, t := Progress(rules, s, goal);
    StepInv(rules, s, step, t);
    StoppersKept(rules, s, step, t);
    hide Inv, Rank, Ahead, Next;
    var rest;
    rest, s' := CanReach(rules, t, goal);
    steps := [step] + rest;
  }

  // ---- The restart counter ----

  /** The step sets restartTimes to zero: ten minutes without trouble, or the end of resetTimer. */
  predicate Zeroes(s: State, step: Step)
  {
    match step
    case SupStep(longRun) => s.sup == WaitElapsed && longRun
    case StopStep(i) => i < |s.stoppers| && s.stoppers[i].pc == CountReset
    case _ => false
  }

  /** The number of backoffs completed since the counter was last zeroed, if it started at `count`. */
  function BackoffsSince(rules: Rules, s: State, steps: seq<Step>, count: nat): nat
    decreases |steps|
  {
    if steps == [] || Next(rules, s, steps[0]).None? then count
    else BackoffsSince(rules, Next(rules, s, steps[0]).value, steps[1..],
                       if Zeroes(s, steps[0]) then 0
                       else if steps[0].SupStep? && s.sup == BackoffCount then count + 1
                       else count)
  }

  lemma SupCounts(rules: Rules, s: State, choice: bool, s': State)
    requires SupNext(rules, s, choice) == Some(s')
    ensures s'.shared.restartTimes == if s.sup == WaitElapsed && choice then 0
                                      else if s.sup == BackoffCount then s.shared.restartTimes + 1
                                      else s.shared.restartTimes
  {
    match s.sup
    case LoopTop =>
    case StartLock =>
    case StartCheck =>
    case StartCreate =>
    case StartFlags =>
    case StartRun =>
    case StartMark =>
    case StartUnlock =>
    case WaitCheck =>
    case WaitClean =>
    case WaitExit =>
    case WaitElapsed =>
    case WaitLock =>
    case WaitClear =>
    case WaitUnlock =>
    case BackoffDelay =>
    case BackoffArm =>
    case BackoffRecv =>
    case BackoffCount =>
    case Finished =>
  }

  lemma StopCounts(rules: Rules, s: State, i: nat, s': State)
    requires i < |s.stoppers| && StopNext(rules, s, i) == Some(s')
    ensures s'.shared.restartTimes == if s.stoppers[i].pc == CountReset then 0 else s.shared.restartTimes
  {
    match s.stoppers[i].pc
    case Idle =>
    case StopLock =>
    case StopCheck =>
    case StopFlag =>
    case StopKill =>
    case StopUnlock =>
    case TimerStop =>
    case TimerDrain =>
    case TimerReset =>
    case CountReset =>
  }

  lemma CounterStep(rules: Rules, s: State, step: Step, s': State)
    requires Next(rules, s, step) == Some(s')
    ensures s'.shared.restartTimes == if Zeroes(s, step) then 0
                                      else if step.SupStep? && s.sup == BackoffCount then s.shared.restartTimes + 1
                                      else s.shared.restartTimes
  {
    hide SupNext, StopNext;
    match step
    case SupStep(choice) => SupCounts(rules, s, choice, s');
    case StopStep(i) => StopCounts(rules, s, i, s');
    case _ =>
  }

  /** Over every run, restartTimes is the number of backoffs since its last zeroing. */
  lemma {:induction false} CounterCounts(rules: Rules, s: State, steps: seq<Step>, s': State)
    requires Run(rules, s, steps) == Some(s')
    ensures s'.shared.restartTimes == BackoffsSince(rules, s, steps, s.shared.restartTimes)
    decreases |steps|
  {
    if steps != [] {
      var t := Next(rules, s, steps[0]).value;
      CounterStep(rules, s, steps[0], t);
      CounterCounts(rules, t, steps[1..], s');
    }
  }
}
