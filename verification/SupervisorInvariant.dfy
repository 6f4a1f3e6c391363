/**
 * What every interleaving of the supervisor and its stoppers keeps.
 */
module SupervisorInvariant {
  import opened Supervisor
  import opened Wrappers

  // ---- The invariant ----

  /** The supervisor is inside one of its two critical sections. */
  predicate SupHolds(pc: SupPc)
  {
    match pc
    case StartCheck | StartCreate | StartFlags | StartRun | StartMark | StartUnlock | WaitClear | WaitUnlock => true
    case _ => false
  }

  predicate StopHolds(pc: StopPc) { pc.StopCheck? || pc.StopFlag? || pc.StopKill? || pc.StopUnlock? }

  /** Where fb.cmd is known to be nil, and where it is known to have a process. */
  predicate CmdIsNil(pc: SupPc)
  {
    match pc
    case LoopTop | StartLock | StartCheck | StartCreate | WaitUnlock => true
    case BackoffDelay | BackoffArm | BackoffRecv | BackoffCount | Finished => true
    case _ => false
  }

  predicate CmdIsRunning(pc: SupPc)
  {
    match pc
    case StartMark | WaitClean | WaitExit | WaitElapsed | WaitLock | WaitClear => true
    case _ => false
  }

  /** Wait has decided that the process is gone or about to be killed. */
  predicate PastExit(pc: SupPc) { pc.WaitElapsed? || pc.WaitLock? || pc.WaitClear? }

  predicate IsAlive(sh: Shared, p: nat) { p < |sh.procs| && sh.procs[p].status == Alive }

  /** The mutex is held exactly by the party inside its critical section. */
  ghost predicate MutexInv(s: State)
  {
    && (s.mutex == Super <==> SupHolds(s.sup))
    && (forall i: nat :: i < |s.stoppers| ==> (s.mutex == Stop(i) <==> StopHolds(s.stoppers[i].pc)))
    && (s.mutex.Stop? ==> s.mutex.id < |s.stoppers|)
  }

  /** Where fb.cmd is nil, a fresh command, or a started one. */
  predicate CmdInv(s: State)
  {
    && (CmdIsNil(s.sup) ==> s.shared.cmd == NoCmd)
    && (s.sup.StartFlags? || s.sup.StartRun? <==> s.shared.cmd == Created)
    && (CmdIsRunning(s.sup) ==> s.shared.cmd.Running?)
    && (s.shared.cmd.Running? ==> s.shared.cmd.pid + 1 == |s.shared.procs|)
  }

  /** A stopper between its kill flag and its kill. */
  predicate KillPending(s: State)
  {
    s.mutex.Stop? && s.mutex.id < |s.stoppers| && s.stoppers[s.mutex.id].pc == StopKill
  }

  /** Only the process of fb.cmd may run; cleanStop on a running one means its kill is under way. */
  ghost predicate ProcInv(s: State)
  {
    && (forall p: nat :: IsAlive(s.shared, p) ==> s.shared.cmd == Running(p))
    && (s.sup.StartRun? ==> !s.shared.cleanStop)
    && (s.shared.cmd.Running? && IsAlive(s.shared, s.shared.cmd.pid) && s.shared.cleanStop ==> KillPending(s))
    && (PastExit(s.sup) && s.shared.cmd.Running? && IsAlive(s.shared, s.shared.cmd.pid)
        ==> s.shared.cleanStop)
  }

  /** What a stopper inside Stop relies on. */
  ghost predicate StopInv(s: State)
  {
    forall i: nat :: i < |s.stoppers| ==> StopperInv(s, i)
  }

  ghost predicate StopperInv(s: State, i: nat)
    requires i < |s.stoppers|
  {
    var pc := s.stoppers[i].pc;
    && (pc.StopFlag? || pc.StopKill? ==> s.shared.cmd.Running?)
    && (pc.StopKill? ==> s.shared.cleanStop)
    && (pc.StopUnlock? ==> forall p: nat :: !IsAlive(s.shared, p))
    && s.stoppers[i].seen <= s.version
  }

  /** A resetter that has stopped or drained the timer and is about to re-arm it. */
  predicate ResetPending(s: State, i: nat) { i < |s.stoppers| && s.stoppers[i].pc == TimerReset }

  /** While backoff waits, the timer is armed, or its tick is there, or a resetter is about to re-arm it. */
  ghost predicate TimerInv(s: State)
  {
    s.sup == BackoffRecv ==> s.shared.armed || s.shared.tick || exists i: nat :: ResetPending(s, i)
  }

  /** Every running process was started after every event whose Stop has completed. */
  ghost predicate FreshInv(s: State)
  {
    && s.served <= s.version
    && (forall p: nat :: p < |s.shared.procs| ==> s.shared.procs[p].version <= s.version)
    && (forall p: nat :: IsAlive(s.shared, p) ==> s.served <= s.shared.procs[p].version)
  }

  /** totalStarts counts every process ever started; the loop ends only after cancellation. */
  predicate CountInv(s: State)
  {
    && |s.shared.procs| + (if s.sup == StartRun then 1 else 0) <= s.shared.totalStarts
    && (s.sup.Finished? ==> s.cancelled)
  }

  ghost predicate Inv(s: State)
  {
    MutexInv(s) && CmdInv(s) && ProcInv(s) && StopInv(s) && TimerInv(s) && FreshInv(s) && CountInv(s)
  }

  // ---- It holds initially and is kept by every step ----

  lemma InitInv(n: nat)
    ensures Inv(Init(n))
    ensures var s := Init(n);
            && s.sup == LoopTop && s.mutex == Free && !s.cancelled && s.version == 0 && s.shared.procs == []
            && s.shared.cmd == NoCmd && s.shared.restartTimes == s.shared.totalStarts == 0
            && s.shared.armed && s.shared.due == AtOnce && !s.shared.tick
            && |s.stoppers| == n && (forall i :: 0 <= i < n ==> s.stoppers[i].pc == Idle)
  {
  }

  lemma SupKeepsMutex(rules: Rules, s: State, choice: bool, s': State)
    requires MutexInv(s) && SupNext(rules, s, choice) == Some(s')
    ensures s'.stoppers == s.stoppers && MutexInv(s')
  {
    match s.sup
    case LoopTop =>
    case StartLock =>
    case StartCheck =>
    case StartCreate =>
    case StartFlags =>
    case StartRun =>
    case StartMark =>
    case StartUnlock =>
    case WaitCheck =>
    case WaitClean =>
    case WaitExit =>
    case WaitElapsed =>
    case WaitLock =>
    case WaitClear =>
    case WaitUnlock =>
    case BackoffDelay =>
    case BackoffArm =>
    case BackoffRecv =>
    case BackoffCount =>
    case Finished =>
  }

  lemma SupKeepsCmd(rules: Rules, s: State, choice: bool, s': State)
    requires CmdInv(s) && CountInv(s) && SupNext(rules, s, choice) == Some(s')
    ensures CmdInv(s') && CountInv(s')
  {
  }

  lemma SupKeepsProcs(rules: Rules, s: State, choice: bool, s': State)
    requires MutexInv(s) && CmdInv(s) && ProcInv(s) && SupNext(rules, s, choice) == Some(s')
    ensures ProcInv(s')
  {
    match s.sup
    case LoopTop =>
    case StartLock =>
    case StartCheck =>
    case StartCreate =>
    case StartFlags =>
    case StartRun =>
    case StartMark =>
    case StartUnlock =>
    case WaitCheck =>
    case WaitClean =>
    case WaitExit =>
    case WaitElapsed =>
    case WaitLock =>
    case WaitClear =>
    case WaitUnlock =>
    case BackoffDelay =>
    case BackoffArm =>
    case BackoffRecv =>
    case BackoffCount =>
  }

  lemma SupKeepsFresh(rules: Rules, s: State, choice: bool, s': State)
    requires CmdInv(s) && FreshInv(s) && SupNext(rules, s, choice) == Some(s')
    ensures FreshInv(s')
  {
    match s.sup
    case LoopTop =>
    case StartLock =>
    case StartCheck =>
    case StartCreate =>
    case StartFlags =>
    case StartRun =>
    case StartMark =>
    case StartUnlock =>
    case WaitCheck =>
    case WaitClean =>
    case WaitExit =>
    case WaitElapsed =>
    case WaitLock =>
    case WaitClear =>
    case WaitUnlock =>
    case BackoffDelay =>
    case BackoffArm =>
    case BackoffRecv =>
    case BackoffCount =>
  }

  lemma SupKeepsTimer(rules: Rules, s: State, choice: bool, s': State)
    requires SupNext(rules, s, choice) == Some(s')
    ensures TimerInv(s')
  {
  }

  lemma SupKeepsStopper(rules: Rules, s: State, choice: bool, s': State, i: nat)
    requires MutexInv(s) && CmdInv(s) && i < |s.stoppers| && StopperInv(s, i) && SupNext(rules, s, choice) == Some(s')
    ensures s'.stoppers == s.stoppers && StopperInv(s', i)
  {
    match s.sup
    case LoopTop =>
    case StartLock =>
    case StartCheck =>
    case StartCreate =>
    case StartFlags =>
    case StartRun =>
    case StartMark =>
    case StartUnlock =>
    case WaitCheck =>
    case WaitClean =>
    case WaitExit =>
    case WaitElapsed =>
    case WaitLock =>
    case WaitClear =>
    case WaitUnlock =>
    case BackoffDelay =>
    case BackoffArm =>
    case BackoffRecv =>
    case BackoffCount =>
    case Finished =>
  }

  lemma SupKeepsStoppers(rules: Rules, s: State, choice: bool, s': State)
    requires MutexInv(s) && CmdInv(s) && StopInv(s) && SupNext(rules, s, choice) == Some(s')
    ensures StopInv(s')
  {
    SupKeepsMutex(rules, s, choice, s');
    hide SupNext, MutexInv, CmdInv, StopperInv;
    forall i: nat | i < |s'.stoppers| ensures StopperInv(s', i) {
      SupKeepsStopper(rules, s, choice, s', i);
    }
  }

  lemma StopKeepsMutex(rules: Rules, s: State, i: nat, s': State)
    requires MutexInv(s) && i < |s.stoppers| && StopNext(rules, s, i) == Some(s')
    ensures MutexInv(s')
  {
    match s.stoppers[i].pc
    case Idle =>
    case StopLock =>
    case StopCheck =>
    case StopFlag =>
    case StopKill =>
    case StopUnlock =>
    case TimerStop =>
    case TimerDrain =>
    case TimerReset =>
    case CountReset =>
  }

  lemma StopKeepsCmd(rules: Rules, s: State, i: nat, s': State)
    requires CmdInv(s) && CountInv(s) && i < |s.stoppers| && StopNext(rules, s, i) == Some(s')
    ensures CmdInv(s') && CountInv(s')
  {
    match s.stoppers[i].pc
    case Idle =>
    case StopLock =>
    case StopCheck =>
    case StopFlag =>
    case StopKill =>
    case StopUnlock =>
    case TimerStop =>
    case TimerDrain =>
    case TimerReset =>
    case CountReset =>
  }

  lemma StopKeepsProcs(rules: Rules, s: State, i: nat, s': State)
    requires MutexInv(s) && CmdInv(s) && ProcInv(s) && i < |s.stoppers| && StopperInv(s, i)
    requires StopNext(rules, s, i) == Some(s')
    ensures ProcInv(s')
  {
    match s.stoppers[i].pc
    case Idle =>
    case StopLock =>
    case StopCheck =>
    case StopFlag =>
    case StopKill =>
    case StopUnlock =>
    case TimerStop =>
    case TimerDrain =>
    case TimerReset =>
    case CountReset =>
  }

  lemma StopKeepsFresh(rules: Rules, s: State, i: nat, s': State)
    requires FreshInv(s) && i < |s.stoppers| && StopperInv(s, i) && StopNext(rules, s, i) == Some(s')
    ensures FreshInv(s')
  {
    match s.stoppers[i].pc
    case Idle =>
    case StopLock =>
    case StopCheck =>
    case StopFlag =>
    case StopKill =>
    case StopUnlock =>
    case TimerStop =>
    case TimerDrain =>
    case TimerReset =>
    case CountReset =>
  }

  /** A stopper's step re-arms the timer, or leaves itself about to, whenever it disarms it or takes the tick. */
  lemma StopTimerEffect(rules: Rules, s: State, i: nat, s': State)
    requires i < |s.stoppers| && StopNext(rules, s, i) == Some(s')
    ensures s'.sup == s.sup && |s'.stoppers| == |s.stoppers|
    ensures forall j: nat :: j < |s.stoppers| && j != i ==> s'.stoppers[j] == s.stoppers[j]
    ensures s.shared.armed || s.shared.tick || ResetPending(s, i)
        ==> s'.shared.armed || s'.shared.tick || ResetPending(s', i)
  {
    match s.stoppers[i].pc
    case Idle =>
    case StopLock =>
    case StopCheck =>
    case StopFlag =>
    case StopKill =>
    case StopUnlock =>
    case TimerStop =>
    case TimerDrain =>
    case TimerReset =>
    case CountReset =>
  }

  lemma StopKeepsTimer(rules: Rules, s: State, i: nat, s': State)
    requires TimerInv(s) && i < |s.stoppers| && StopNext(rules, s, i) == Some(s')
    ensures TimerInv(s')
  {
    hide StopNext;
    StopTimerEffect(rules, s, i, s');
    if s.sup == BackoffRecv && !(s.shared.armed || s.shared.tick || ResetPending(s, i)) {
      var j: nat :| ResetPending(s, j);
      assert ResetPending(s', j);
    }
  }

  /** What a stopper's step does to the processes and to the other stoppers. */
  lemma StopFrame(rules: Rules, s: State, i: nat, s': State)
    requires i < |s.stoppers| && StopNext(rules, s, i) == Some(s')
    ensures s'.shared.cmd == s.shared.cmd && s'.version == s.version && |s'.stoppers| == |s.stoppers|
    ensures s.shared.cleanStop ==> s'.shared.cleanStop
    ensures forall j: nat :: j < |s.stoppers| && j != i ==> s'.stoppers[j] == s.stoppers[j]
    ensures forall p: nat :: IsAlive(s'.shared, p) ==> IsAlive(s.shared, p)
  {
    match s.stoppers[i].pc
    case Idle =>
    case StopLock =>
    case StopCheck =>
    case StopFlag =>
    case StopKill =>
    case StopUnlock =>
    case TimerStop =>
    case TimerDrain =>
    case TimerReset =>
    case CountReset =>
  }

  lemma KillLeavesNone(sh: Shared)
    requires sh.cmd.Running? && sh.cmd.pid < |sh.procs|
    requires forall p: nat :: IsAlive(sh, p) ==> sh.cmd == Running(p)
    ensures forall p: nat :: !IsAlive(Kill(sh), p)
  {
    forall p: nat ensures !IsAlive(Kill(sh), p) {
      assert IsAlive(sh, p) ==> sh.cmd == Running(p);
    }
  }

  /** The stopper that moves reaches the end of Stop only when nothing is left running. */
  lemma StopMoves(rules: Rules, s: State, i: nat, s': State)
    requires CmdInv(s) && ProcInv(s) && i < |s.stoppers| && StopperInv(s, i) && StopNext(rules, s, i) == Some(s')
    ensures |s'.stoppers| == |s.stoppers| && StopperInv(s', i)
  {
    match s.stoppers[i].pc
    case Idle =>
    case StopLock =>
    case StopCheck =>
    case StopFlag =>
    case StopKill => KillLeavesNone(s.shared);
    case StopUnlock =>
    case TimerStop =>
    case TimerDrain =>
    case TimerReset =>
    case CountReset =>
  }

  lemma StopKeepsStoppers(rules: Rules, s: State, i: nat, s': State)
    requires CmdInv(s) && ProcInv(s) && StopInv(s) && i < |s.stoppers| && StopNext(rules, s, i) == Some(s')
    ensures StopInv(s')
  {
    hide StopNext;
    StopFrame(rules, s, i, s');
    forall j: nat | j < |s'.stoppers| ensures StopperInv(s', j) {
      assert StopperInv(s, j) && StopperInv(s, i);
      if j == i {
        StopMoves(rules, s, i, s');
      }
    }
  }

  lemma OtherStepInv(rules: Rules, s: State, step: Step, s': State)
    requires Inv(s) && !step.SupStep? && !step.StopStep? && Next(rules, s, step) == Some(s')
    ensures Inv(s')
  {
    assert forall p: nat :: IsAlive(s'.shared, p) ==> IsAlive(s.shared, p);
    forall i: nat | i < |s'.stoppers| ensures StopperInv(s', i) {
      assert StopperInv(s, i);
    }
    assert forall i: nat :: ResetPending(s, i) ==> ResetPending(s', i);
  }

  lemma StepInv(rules: Rules, s: State, step: Step, s': State)
    requires Inv(s) && Next(rules, s, step) == Some(s')
    ensures Inv(s')
  {
    match step
    case SupStep(choice) =>
      hide SupNext, MutexInv, CmdInv, ProcInv, StopInv, TimerInv, FreshInv, CountInv;
      SupKeepsMutex(rules, s, choice, s');
      SupKeepsCmd(rules, s, choice, s');
      SupKeepsProcs(rules, s, choice, s');
      SupKeepsFresh(rules, s, choice, s');
      SupKeepsTimer(rules, s, choice, s');
      SupKeepsStoppers(rules, s, choice, s');
    case StopStep(i) =>
      assert StopperInv(s, i);
      hide StopNext, MutexInv, CmdInv, ProcInv, StopInv, TimerInv, FreshInv, CountInv;
      StopKeepsMutex(rules, s, i, s');
      StopKeepsCmd(rules, s, i, s');
      StopKeepsProcs(rules, s, i, s');
      StopKeepsFresh(rules, s, i, s');
      StopKeepsTimer(rules, s, i, s');
      StopKeepsStoppers(rules, s, i, s');
    case _ =>
      OtherStepInv(rules, s, step, s');
  }

  lemma {:induction false} RunInv(rules: Rules, s: State, steps: seq<Step>, s': State)
    requires Inv(s) && Run(rules, s, steps) == Some(s')
    ensures Inv(s')
    decreases |steps|
  {
    if steps != [] {
      var t := Next(rules, s, steps[0]).value;
      StepInv(rules, s, steps[0], t);
      RunInv(rules, t, steps[1..], s');
    }
  }

  /** The invariant holds in every reachable state, whatever the interleaving. */
  lemma ReachableInv(rules: Rules, n: nat, s: State)
    requires Reachable(rules, n, s)
    ensures Inv(s)
  {
    var steps :| Run(rules, Init(n), steps) == Some(s);
    InitInv(n);
    RunInv(rules, Init(n), steps, s);
  }
}
