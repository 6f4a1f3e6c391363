/**
 * When resetTimer returns: it may have to wait for a tick, and after shutdown that tick may never come.
 */
module TimerResets {
  import opened Supervisor
  import opened SupervisorInvariant
  import opened SupervisorTheorems
  import opened Wrappers

  // ---- Without waiting ----

  /** timer.Stop finds the timer running, or takes a tick back that nobody has received. */
  predicate StopSucceeds(rules: Rules, sh: Shared) { sh.armed || (sh.tick && rules == SyncChannel) }

  /** resetTimer passes over the receive exactly if timer.Stop succeeds. */
  lemma PassesOverDrain(rules: Rules, s: State, i: nat)
    requires i < |s.stoppers| && s.stoppers[i].pc == TimerStop
    ensures StopNext(rules, s, i).Some?
    ensures var pc := StopNext(rules, s, i).value.stoppers[i].pc;
            (pc == TimerReset || pc == TimerDrain) && (pc == TimerReset <==> StopSucceeds(rules, s.shared))
  {
  }

  predicate PastDrain(pc: StopPc) { pc.TimerReset? || pc.CountReset? }

  /** Past the receive it can always go on, whatever the others do in between. */
  lemma {:induction false} NeverBlockedAfter(rules: Rules, s: State, i: nat, steps: seq<Step>, s': State)
    requires i < |s.stoppers| && PastDrain(s.stoppers[i].pc)
    requires Run(rules, s, steps) == Some(s') && StopStep(i) !in steps
    ensures i < |s'.stoppers| && s'.stoppers[i] == s.stoppers[i]
    ensures StopNext(rules, s', i).Some?
    decreases |steps|
  {
    if steps != [] {
      var t := Next(rules, s, steps[0]).value;
      StoppersKept(rules, s, steps[0], t);
      NeverBlockedAfter(rules, t, i, steps[1..], s');
    }
  }

  // ---- Waiting for ever ----

  /** The timer is not running, its tick is gone, and no stopper is about to re-arm it. */
  ghost predicate NoTick(s: State)
  {
    !s.shared.armed && !s.shared.tick && forall i: nat :: !ResetPending(s, i)
  }

  predicate MustDrain(pc: StopPc) { pc.TimerStop? || pc.TimerDrain? }

  /** Nobody who has not passed the receive gets past it. */
  predicate HeldBack(from: StopPc, to: StopPc)
  {
    (MustDrain(from) ==> MustDrain(to)) && (!PastDrain(from) ==> !PastDrain(to))
  }

  ghost predicate AllHeldBack(s: State, t: State)
  {
    && |t.stoppers| == |s.stoppers|
    && forall i: nat :: i < |s.stoppers| ==> HeldBack(s.stoppers[i].pc, t.stoppers[i].pc)
  }

  lemma NoTickStopStep(rules: Rules, s: State, i: nat, t: State)
    requires NoTick(s) && i < |s.stoppers| && StopNext(rules, s, i) == Some(t)
    ensures t.shared.armed == s.shared.armed && t.shared.tick == s.shared.tick
    ensures t.sup == s.sup && t.cancelled == s.cancelled
    ensures |t.stoppers| == |s.stoppers| && !t.stoppers[i].pc.TimerReset?
    ensures HeldBack(s.stoppers[i].pc, t.stoppers[i].pc)
  {
    assert !ResetPending(s, i);
    match s.stoppers[i].pc
    case Idle =>
    case StopLock =>
    case StopCheck =>
    case StopFlag =>
    case StopKill =>
    case StopUnlock =>
    case TimerStop =>
    case TimerDrain =>
    case CountReset =>
  }

  lemma NoTickSupStep(rules: Rules, s: State, choice: bool, t: State)
    requires !s.shared.armed && !s.shared.tick && s.sup != BackoffArm && SupNext(rules, s, choice) == Some(t)
    ensures !t.shared.armed && !t.shared.tick && t.stoppers == s.stoppers && t.cancelled == s.cancelled
    ensures t.sup == BackoffArm ==> s.sup == BackoffDelay
    ensures s.cancelled && PastReceive(s.sup) ==> PastReceive(t.sup)
  {
    match s.sup
    case LoopTop =>
    case StartLock =>
    case StartCheck =>
    case StartCreate =>
    case StartFlags =>
    case StartRun =>
    case StartMark =>
    case StartUnlock =>
    case WaitCheck =>
    case WaitClean =>
    case WaitExit =>
    case WaitElapsed =>
    case WaitLock =>
    case WaitClear =>
    case WaitUnlock =>
    case BackoffDelay =>
    case BackoffArm =>
    case BackoffRecv =>
    case BackoffCount =>
    case Finished =>
  }

  /** Only the supervisor can change that, by arming the timer. */
  lemma NoTickStep(rules: Rules, s: State, step: Step, t: State)
    requires NoTick(s) && s.sup != BackoffArm && Next(rules, s, step) == Some(t)
    ensures NoTick(t) && AllHeldBack(s, t)
    ensures t.sup == BackoffArm ==> step.SupStep? && s.sup == BackoffDelay
    ensures s.cancelled ==> t.cancelled && (PastReceive(s.sup) ==> PastReceive(t.sup))
  {
    StoppersKept(rules, s, step, t);
    match step
    case StopStep(j) =>
      StepOfStopper(rules, s, j, t);
      NoTickStopStep(rules, s, j, t);
      hide Next, StopNext;
      assert forall k: nat :: k != j && ResetPending(t, k) ==> ResetPending(s, k);
    case SupStep(choice) =>
      NoTickSupStep(rules, s, choice, t);
      hide SupNext;
      assert forall k: nat :: ResetPending(t, k) ==> ResetPending(s, k);
    case Exit(_) => assert forall k: nat :: ResetPending(t, k) ==> ResetPending(s, k);
    case Change => assert forall k: nat :: ResetPending(t, k) ==> ResetPending(s, k);
    case Cancel => assert forall k: nat :: ResetPending(t, k) ==> ResetPending(s, k);
    case Fire =>
  }

  lemma StepOfStopper(rules: Rules, s: State, j: nat, s': State)
    requires Next(rules, s, StopStep(j)) == Some(s')
    ensures j < |s.stoppers| && StopNext(rules, s, j) == Some(s')
  {
  }

  predicate PastReceive(pc: SupPc) { pc.BackoffCount? || pc.LoopTop? || pc.Finished? }

  /** The supervisor will not arm the timer again, and nobody else is about to. */
  ghost predicate Stuck(s: State)
  {
    s.cancelled && PastReceive(s.sup) && NoTick(s)
  }

  /** No step of anybody ends it, and no resetTimer, begun before or later, gets past its receive. */
  lemma {:induction false} StuckForEver(rules: Rules, s: State, steps: seq<Step>, t: State)
    requires Stuck(s) && Run(rules, s, steps) == Some(t)
    ensures Stuck(t) && AllHeldBack(s, t)
    decreases |steps|
  {
    if steps != [] {
      var u := Next(rules, s, steps[0]).value;
      NoTickStep(rules, s, steps[0], u);
      StuckForEver(rules, u, steps[1..], t);
    }
  }

  // ---- Otherwise the tick can come ----

  /** Without a running timer, a tick or a pending reset, the supervisor still has to arm the timer. */
  lemma ArmAhead(s: State)
    requires Inv(s) && !Stuck(s) && NoTick(s)
    ensures Ahead(BackoffArm, s)
  {
    assert s.sup != BackoffRecv;
  }

  /** The timer can be got running, or a tick can be got into the channel. */
  lemma TimerRuns(rules: Rules, s: State, i: nat) returns (steps: seq<Step>, t: State)
    requires Inv(s) && !Stuck(s) && i < |s.stoppers| && s.stoppers[i].pc == TimerDrain
    ensures Run(rules, s, steps) == Some(t) && (t.shared.armed || t.shared.tick)
    ensures i < |t.stoppers| && t.stoppers[i] == s.stoppers[i]
  {
    NoSteps(rules, s);
    steps, t := [], s;
    if !s.shared.armed && !s.shared.tick {
      if j: nat :| ResetPending(s, j) {
        steps, t := Extend(rules, s, steps, t, StopStep(j));
      } else {
        ArmAhead(s);
        steps, t := CanReach(rules, s, BackoffArm);
        hide Run, Inv, Stuck;
        steps, t := Extend(rules, s, steps, t, SupStep(false));
      }
    }
  }

  lemma TickComes(rules: Rules, s: State, i: nat) returns (steps: seq<Step>, t: State)
    requires Inv(s) && !Stuck(s) && i < |s.stoppers| && s.stoppers[i].pc == TimerDrain
    ensures Run(rules, s, steps) == Some(t) && t.shared.tick
    ensures i < |t.stoppers| && t.stoppers[i] == s.stoppers[i]
  {
    steps, t := TimerRuns(rules, s, i);
    if !t.shared.tick {
      steps, t := Extend(rules, s, steps, t, Fire);
    }
  }

  predicate Resetting(pc: StopPc) { MustDrain(pc) || PastDrain(pc) }

  /** Past the receive, two steps at most end resetTimer. */
  lemma Finishes(rules: Rules, s: State, steps: seq<Step>, t: State, i: nat) returns (steps': seq<Step>, t': State)
    requires Run(rules, s, steps) == Some(t) && i < |t.stoppers| && PastDrain(t.stoppers[i].pc)
    ensures Run(rules, s, steps') == Some(t') && i < |t'.stoppers| && t'.stoppers[i].pc == Idle
  {
    hide Run;
    steps', t' := steps, t;
    if t.stoppers[i].pc == TimerReset {
      steps', t' := Extend(rules, s, steps', t', StopStep(i));
    }
    steps', t' := Extend(rules, s, steps', t', StopStep(i));
  }

  lemma DrainsAndFinishes(rules: Rules, s: State, i: nat) returns (steps: seq<Step>, t: State)
    requires Inv(s) && !Stuck(s) && i < |s.stoppers| && s.stoppers[i].pc == TimerDrain
    ensures Run(rules, s, steps) == Some(t) && i < |t.stoppers| && t.stoppers[i].pc == Idle
  {
    hide Run, Inv, Stuck;
    steps, t := TickComes(rules, s, i);
    steps, t := Extend(rules, s, steps, t, StopStep(i));
    steps, t := Finishes(rules, s, steps, t, i);
  }

  /** The step at timer.Stop. */
  lemma StopThenStuck(rules: Rules, s: State, i: nat, t: State)
    requires i < |s.stoppers| && s.stoppers[i].pc == TimerStop && StopNext(rules, s, i) == Some(t)
    ensures i < |t.stoppers| && (t.stoppers[i].pc == TimerReset || t.stoppers[i].pc == TimerDrain)
    ensures t.stoppers[i].pc == TimerDrain && Stuck(t) ==> Stuck(s)
  {
    if t.stoppers[i].pc == TimerDrain && Stuck(t) {
      assert forall k: nat :: ResetPending(s, k) ==> ResetPending(t, k);
    }
  }

  lemma StopsAndFinishes(rules: Rules, s: State, i: nat) returns (steps: seq<Step>, t: State)
    requires Inv(s) && !Stuck(s) && i < |s.stoppers| && s.stoppers[i].pc == TimerStop
    ensures Run(rules, s, steps) == Some(t) && i < |t.stoppers| && t.stoppers[i].pc == Idle
  {
    NoSteps(rules, s);
    steps, t := Extend(rules, s, [], s, StopStep(i));
    StopThenStuck(rules, s, i, t);
    StepInv(rules, s, StopStep(i), t);
    hide Run, Inv, Stuck, StopNext;
    if t.stoppers[i].pc == TimerReset {
      steps, t := Finishes(rules, s, steps, t, i);
    } else {
      var more, u := DrainsAndFinishes(rules, t, i);
      RunConcat(rules, s, steps, t, more);
      steps, t := steps + more, u;
    }
  }

  /** The run ends with stopper i's resetTimer having returned. */
  predicate Returns(rules: Rules, s: State, i: nat, steps: seq<Step>)
  {
    var r := Run(rules, s, steps);
    r.Some? && i < |r.value.stoppers| && r.value.stoppers[i].pc == Idle
  }

  /** resetTimer can still return exactly if the receive is behind it or the state is not a stuck one. */
  lemma ReturnsExactly(rules: Rules, n: nat, s: State, i: nat)
    requires Reachable(rules, n, s) && i < |s.stoppers| && Resetting(s.stoppers[i].pc)
    ensures (exists steps :: Returns(rules, s, i, steps)) <==> PastDrain(s.stoppers[i].pc) || !Stuck(s)
  {
    ReachableInv(rules, n, s);
    if MustDrain(s.stoppers[i].pc) && Stuck(s) {
      forall steps ensures !Returns(rules, s, i, steps) {
        if Run(rules, s, steps).Some? {
          StuckForEver(rules, s, steps, Run(rules, s, steps).value);
        }
      }
    } else {
      var steps, t;
      if PastDrain(s.stoppers[i].pc) {
        NoSteps(rules, s);
        steps, t := Finishes(rules, s, [], s, i);
      } else if s.stoppers[i].pc == TimerDrain {
        steps, t := DrainsAndFinishes(rules, s, i);
      } else {
        steps, t := StopsAndFinishes(rules, s, i);
      }
      assert Returns(rules, s, i, steps);
    }
  }

  // ---- A change during backoff ----

  predicate WithoutSupervisor(steps: seq<Step>)
  {
    forall k :: 0 <= k < |steps| ==> !steps[k].SupStep?
  }

  lemma StopLeavesDueAtOnce(rules: Rules, s: State, i: nat, t: State)
    requires i < |s.stoppers| && StopNext(rules, s, i) == Some(t) && (s.shared.armed ==> s.shared.due == AtOnce)
    ensures t.sup == s.sup && (t.shared.armed ==> t.shared.due == AtOnce)
  {
    match s.stoppers[i].pc
    case Idle =>
    case StopLock =>
    case StopCheck =>
    case StopFlag =>
    case StopKill =>
    case StopUnlock =>
    case TimerStop =>
    case TimerDrain =>
    case TimerReset =>
    case CountReset =>
  }

  lemma {:induction false} DueAtOnce(rules: Rules, s: State, steps: seq<Step>, t: State)
    requires Run(rules, s, steps) == Some(t) && WithoutSupervisor(steps)
    requires s.shared.armed ==> s.shared.due == AtOnce
    ensures t.sup == s.sup && (t.shared.armed ==> t.shared.due == AtOnce)
    decreases |steps|
  {
    if steps != [] {
      var u := Next(rules, s, steps[0]).value;
      if steps[0].StopStep? {
        StepOfStopper(rules, s, steps[0].id, u);
        StopLeavesDueAtOnce(rules, s, steps[0].id, u);
      }
      DueAtOnce(rules, u, steps[1..], t);
    }
  }

  /**
   * A resetTimer whose timer.Stop succeeds while backoff waits takes the delay away: until the supervisor
   * has its tick, whatever the others do, the timer is not running or fires at once, and the stopper's next
   * step sets it running.
   */
  lemma CutsBackoffShort(rules: Rules, s: State, i: nat, steps: seq<Step>, t: State)
    requires i < |s.stoppers| && s.stoppers[i].pc == TimerStop && StopSucceeds(rules, s.shared)
    requires s.sup == BackoffRecv && Run(rules, s, [StopStep(i)] + steps) == Some(t) && WithoutSupervisor(steps)
    ensures t.sup == BackoffRecv && (t.shared.armed ==> t.shared.due == AtOnce)
    ensures i < |t.stoppers| && (StopStep(i) !in steps ==> t.stoppers[i].pc == TimerReset)
    ensures steps == [StopStep(i)] ==> t.shared.armed
  {
    var u := StopNext(rules, s, i).value;
    assert Next(rules, s, StopStep(i)) == Some(u);
    assert ([StopStep(i)] + steps)[1..] == steps;
    PassesOverDrain(rules, s, i);
    assert !u.shared.armed && u.sup == BackoffRecv;
    DueAtOnce(rules, u, steps, t);
    StoppersStay(rules, u, steps, t);
    if StopStep(i) !in steps {
      NeverBlockedAfter(rules, u, i, steps, t);
    } else if steps == [StopStep(i)] {
      assert steps[1..] == [];
      assert t == StopNext(rules, u, i).value;
    }
  }

  lemma {:induction false} StoppersStay(rules: Rules, s: State, steps: seq<Step>, t: State)
    requires Run(rules, s, steps) == Some(t)
    ensures |t.stoppers| == |s.stoppers|
    decreases |steps|
  {
    if steps != [] {
      var u := Next(rules, s, steps[0]).value;
      StoppersKept(rules, s, steps[0], u);
      StoppersStay(rules, u, steps[1..], t);
    }
  }

  // ---- States in which resetTimer waits ----

  lemma Go(rules: Rules, s: State, step: Step) returns (t: State)
    requires Reachable(rules, 1, s) && Next(rules, s, step).Some?
    ensures Reachable(rules, 1, t) && t == Next(rules, s, step).value
  {
    ReachableStep(rules, 1, s, step);
    t := Next(rules, s, step).value;
  }

  /** The program has not been stopped yet and the supervisor is alone. */
  predicate Quiet(s: State)
  {
    s.mutex == Free && !s.cancelled && s.stoppers == [Stopper(Idle, 0)] && s.version == 0
  }

  lemma StartsQuiet(rules: Rules) returns (t: State)
    ensures Reachable(rules, 1, t) && Quiet(t) && t.sup == LoopTop
    ensures t.shared.cmd == NoCmd && t.shared.procs == [] && !t.shared.tick && t.shared.restartTimes == 0
  {
    InitReachable(rules, 1);
    t := Init(1);
  }

  /** A failed start ... */
  lemma AttemptFails(rules: Rules, s: State) returns (t: State)
    requires Reachable(rules, 1, s) && Quiet(s) && s.sup == LoopTop && s.shared.cmd == NoCmd
    ensures Reachable(rules, 1, t) && t == s.(sup := BackoffDelay, shared := t.shared)
    ensures t.shared == s.shared.(cleanStop := false, cleanStart := false, totalStarts := s.shared.totalStarts + 1)
  {
    hide Reachable, Run;
    t := s;
    t := Go(rules, t, SupStep(false));
    t := Go(rules, t, SupStep(false));
    t := Go(rules, t, SupStep(false));
    t := Go(rules, t, SupStep(false));
    t := Go(rules, t, SupStep(false));
    t := Go(rules, t, SupStep(false));
    t := Go(rules, t, SupStep(false));
    t := Go(rules, t, SupStep(false));
  }

  /** ... the timer is armed ... */
  lemma TimerArmed(rules: Rules) returns (t: State)
    ensures Reachable(rules, 1, t) && Quiet(t) && t.sup == BackoffRecv
    ensures t.shared.cmd == NoCmd && t.shared.procs == [] && t.shared.armed && !t.shared.tick
    ensures t.shared.restartTimes == 0
  {
    hide Reachable, Run;
    t := StartsQuiet(rules);
    t := AttemptFails(rules, t);
    t := Go(rules, t, SupStep(false));
    t := Go(rules, t, SupStep(false));
  }

  /** ... and the backoff ends: the supervisor is back and its tick is consumed. */
  lemma FirstBackoff(rules: Rules) returns (t: State)
    ensures Reachable(rules, 1, t) && Quiet(t) && t.sup == LoopTop
    ensures t.shared.cmd == NoCmd && t.shared.procs == [] && !t.shared.armed && !t.shared.tick
  {
    hide Reachable, Run;
    t := TimerArmed(rules);
    t := Go(rules, t, Fire);
    t := Go(rules, t, SupStep(false));
    t := Go(rules, t, SupStep(false));
  }

  /** A successful start ... */
  lemma AttemptSucceeds(rules: Rules) returns (t: State)
    ensures Reachable(rules, 1, t) && Quiet(t) && t.sup == WaitCheck
    ensures t.shared.cmd == Running(0) && t.shared.procs == [Proc(Alive, 0)]
    ensures !t.shared.armed && !t.shared.tick && !t.shared.cleanStop
  {
    hide Reachable, Run;
    t := FirstBackoff(rules);
    t := Go(rules, t, SupStep(true));
    t := Go(rules, t, SupStep(true));
    t := Go(rules, t, SupStep(true));
    t := Go(rules, t, SupStep(true));
    t := Go(rules, t, SupStep(true));
    t := Go(rules, t, SupStep(true));
    t := Go(rules, t, SupStep(true));
    t := Go(rules, t, SupStep(true));
  }

  /** ... after which the supervisor waits for the process to exit. */
  lemma SecondAttemptRuns(rules: Rules) returns (t: State)
    ensures Reachable(rules, 1, t) && Quiet(t) && t.sup == WaitExit
    ensures t.shared.cmd == Running(0) && t.shared.procs == [Proc(Alive, 0)] && !t.shared.armed && !t.shared.tick
  {
    hide Reachable, Run;
    t := AttemptSucceeds(rules);
    t := Go(rules, t, SupStep(false));
    t := Go(rules, t, SupStep(false));
  }

  /** Stop of the running process, and then resetTimer up to the receive. */
  lemma StopsAndDrains(rules: Rules, s: State) returns (t: State)
    requires Reachable(rules, 1, s) && s.sup == WaitExit && s.mutex == Free && s.stoppers == [Stopper(Idle, 0)]
    requires s.version == 0 && s.shared.cmd == Running(0) && s.shared.procs == [Proc(Alive, 0)]
    requires !s.shared.armed && !s.shared.tick
    ensures Reachable(rules, 1, t) && t.stoppers == [Stopper(TimerDrain, 0)] && t.mutex == Free
    ensures t.cancelled == s.cancelled && t.sup == WaitExit && !t.shared.armed && !t.shared.tick
    ensures t.shared.cmd == Running(0) && t.shared.procs == [Proc(Killed, 0)]
  {
    hide Reachable, Run;
    t := s;
    t := Go(rules, t, StopStep(0));
    t := Go(rules, t, StopStep(0));
    t := Go(rules, t, StopStep(0));
    t := Go(rules, t, StopStep(0));
    t := Go(rules, t, StopStep(0));
    t := Go(rules, t, StopStep(0));
    t := Go(rules, t, StopStep(0));
  }

  /**
   * The configuration changed while Fluent Bit was running: the timer's tick had been consumed long
   * before, and resetTimer waits on a timer that is not running. Some run still ends the wait.
   */
  lemma ResetTimerMayWait(rules: Rules) returns (t: State)
    ensures Reachable(rules, 1, t) && t.stoppers == [Stopper(TimerDrain, 0)] && t.sup == WaitExit
    ensures StopNext(rules, t, 0) == None && Next(rules, t, Fire) == None
    ensures exists steps :: Returns(rules, t, 0, steps)
  {
    t := SecondAttemptRuns(rules);
    t := StopsAndDrains(rules, t);
    ReturnsExactly(rules, 1, t, 0);
  }

  /** The killed process is gone and the supervisor is about to drop it. */
  lemma ProcessGone(rules: Rules, s: State) returns (t: State)
    requires Reachable(rules, 1, s) && s.sup == WaitExit
    requires s.shared.cmd == Running(0) && s.shared.procs == [Proc(Killed, 0)]
    ensures Reachable(rules, 1, t)
    ensures t == s.(sup := WaitLock, shared := s.shared.(procs := [Proc(Dead, 0)]))
  {
    hide Reachable, Run;
    t := Go(rules, s, Exit(0));
    t := Go(rules, t, SupStep(false));
    t := Go(rules, t, SupStep(false));
  }

  lemma CommandDropped(rules: Rules, s: State) returns (t: State)
    requires Reachable(rules, 1, s) && s.sup == WaitLock && s.mutex == Free
    ensures Reachable(rules, 1, t)
    ensures t == s.(sup := BackoffDelay, shared := s.shared.(cmd := NoCmd))
  {
    hide Reachable, Run;
    t := Go(rules, s, SupStep(false));
    t := Go(rules, t, SupStep(false));
    t := Go(rules, t, SupStep(false));
  }

  /** The supervisor arms the timer once more, as the stopper waits. */
  lemma ArmsOnceMore(rules: Rules, s: State) returns (t: State)
    requires Reachable(rules, 1, s) && s.mutex == Free && s.sup == WaitExit
    requires s.shared.cmd == Running(0) && s.shared.procs == [Proc(Killed, 0)] && !s.shared.tick
    ensures Reachable(rules, 1, t) && t.stoppers == s.stoppers && t.sup == BackoffRecv
    ensures t.cancelled == s.cancelled && t.shared.armed && !t.shared.tick
  {
    hide Reachable, Run;
    t := ProcessGone(rules, s);
    t := CommandDropped(rules, t);
    t := Go(rules, t, SupStep(false));
    t := Go(rules, t, SupStep(false));
  }

  /**
   * Shutdown while Fluent Bit is running: the supervisor takes the tick that both were waiting for, sees
   * that it has been cancelled and ends, and resetTimer never returns, whatever is done.
   */
  lemma ShutdownMayHang(rules: Rules) returns (t: State)
    ensures Reachable(rules, 1, t) && Stuck(t) && t.sup == Finished && t.stoppers == [Stopper(TimerDrain, 0)]
    ensures !exists steps :: Returns(rules, t, 0, steps)
  {
    t := SecondAttemptRuns(rules);
    t := Go(rules, t, Cancel);
    t := StopsAndDrains(rules, t);
    t := ArmsOnceMore(rules, t);
    t := SupervisorEnds(rules, t);
    ReturnsExactly(rules, 1, t, 0);
  }

  lemma SupervisorEnds(rules: Rules, s: State) returns (t: State)
    requires Reachable(rules, 1, s) && s.stoppers == [Stopper(TimerDrain, 0)] && s.sup == BackoffRecv
    requires s.cancelled && s.shared.armed && !s.shared.tick
    ensures Reachable(rules, 1, t) && Stuck(t) && t.sup == Finished && t.stoppers == s.stoppers
  {
    hide Reachable, Run;
    t := Go(rules, s, Fire);
    t := Go(rules, t, SupStep(false));
    t := Go(rules, t, SupStep(false));
    t := Go(rules, t, SupStep(false));
  }

  /**
   * With a buffered channel a tick that is there when timer.Stop is called is no guarantee: the supervisor
   * can take it first.
   */
  lemma TickMayBeTaken() returns (s: State, t: State)
    ensures Reachable(BufferedChannel, 1, s) && s.stoppers == [Stopper(TimerStop, 0)] && s.shared.tick
    ensures Run(BufferedChannel, s, [StopStep(0), SupStep(false)]) == Some(t)
    ensures t.stoppers == [Stopper(TimerDrain, 0)] && StopNext(BufferedChannel, t, 0) == None
  {
    hide Reachable;
    s := TimerArmed(BufferedChannel);
    s := Go(BufferedChannel, s, Fire);
    s := Go(BufferedChannel, s, StopStep(0));
    s := Go(BufferedChannel, s, StopStep(0));
    s := Go(BufferedChannel, s, StopStep(0));
    s := Go(BufferedChannel, s, StopStep(0));
    var steps;
    NoSteps(BufferedChannel, s);
    steps, t := Extend(BufferedChannel, s, [], s, StopStep(0));
    steps, t := Extend(BufferedChannel, s, steps, t, SupStep(false));
  }
}
