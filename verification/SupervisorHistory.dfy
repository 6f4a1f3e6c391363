/**
 * What the fields and the timer record of a run: the outcome of the last start, the number of attempts,
 * the count that each backoff read, and the configuration version that a stopper serves.
 */
module SupervisorHistory {
  import opened Supervisor
  import opened SupervisorInvariant
  import opened SupervisorTheorems
  import opened RunDelays
  import opened Wrappers

  // ---- cleanStart ----

  /** Only the supervisor starts processes and keeps the record of it. */
  lemma OthersKeepStarts(rules: Rules, s: State, step: Step, t: State)
    requires Next(rules, s, step) == Some(t) && !step.SupStep?
    ensures t.sup == s.sup && t.delayCount == s.delayCount
    ensures t.shared.cleanStart == s.shared.cleanStart && t.shared.totalStarts == s.shared.totalStarts
    ensures |t.shared.procs| == |s.shared.procs| && t.shared.cmd == s.shared.cmd
  {
    if step.StopStep? {
      match s.stoppers[step.id].pc
      case Idle =>
      case StopLock =>
      case StopCheck =>
      case StopFlag =>
      case StopKill =>
      case StopUnlock =>
      case TimerStop =>
      case TimerDrain =>
      case TimerReset =>
      case CountReset =>
    }
  }

  /** The attempt with number `total` has ended, with this result, or a later attempt has begun. */
  predicate Recorded(s: State, total: nat, launched: bool)
  {
    || s.shared.totalStarts > total
    || (s.shared.totalStarts == total && s.sup != StartRun
        && s.shared.cleanStart == (launched && s.sup != StartMark) && (s.sup == StartMark ==> launched))
  }

  lemma RecordedStep(rules: Rules, s: State, step: Step, t: State, total: nat, launched: bool)
    requires Recorded(s, total, launched) && Next(rules, s, step) == Some(t)
    ensures Recorded(t, total, launched)
  {
    if step.SupStep? {
      match s.sup
      case LoopTop =>
      case StartLock =>
      case StartCheck =>
      case StartCreate =>
      case StartFlags =>
      case StartRun =>
      case StartMark =>
      case StartUnlock =>
      case WaitCheck =>
      case WaitClean =>
      case WaitExit =>
      case WaitElapsed =>
      case WaitLock =>
      case WaitClear =>
      case WaitUnlock =>
      case BackoffDelay =>
      case BackoffArm =>
      case BackoffRecv =>
      case BackoffCount =>
    } else {
      OthersKeepStarts(rules, s, step, t);
    }
  }

  lemma {:induction false} RecordedRun(rules: Rules, s: State, steps: seq<Step>, t: State, total: nat, launched: bool)
    requires Recorded(s, total, launched) && Run(rules, s, steps) == Some(t)
    ensures Recorded(t, total, launched)
    decreases |steps|
  {
    if steps != [] {
      var u := Next(rules, s, steps[0]).value;
      RecordedStep(rules, s, steps[0], u, total, launched);
      hide Next, Recorded;
      RecordedRun(rules, u, steps[1..], t, total, launched);
    }
  }

  /** The supervisor has been through Start and has not yet dropped the command. */
  predicate AfterStart(pc: SupPc)
  {
    match pc
    case StartUnlock | WaitCheck | WaitClean | WaitExit | WaitElapsed | WaitLock | WaitClear => true
    case _ => false
  }

  predicate CleanStartInv(s: State)
  {
    && (s.sup.StartRun? || s.sup.StartMark? ==> !s.shared.cleanStart)
    && (AfterStart(s.sup) ==> (s.shared.cleanStart <==> s.shared.cmd.Running?))
  }

  lemma CleanStartStep(rules: Rules, s: State, step: Step, t: State)
    requires CmdInv(s) && CleanStartInv(s) && Next(rules, s, step) == Some(t)
    ensures CleanStartInv(t)
  {
    if step.SupStep? {
      match s.sup
      case LoopTop =>
      case StartLock =>
      case StartCheck =>
      case StartCreate =>
      case StartFlags =>
      case StartRun =>
      case StartMark =>
      case StartUnlock =>
      case WaitCheck =>
      case WaitClean =>
      case WaitExit =>
      case WaitElapsed =>
      case WaitLock =>
      case WaitClear =>
      case WaitUnlock =>
      case BackoffDelay =>
      case BackoffArm =>
      case BackoffRecv =>
      case BackoffCount =>
    } else {
      OthersKeepStarts(rules, s, step, t);
      hide Next;
    }
  }

  lemma {:induction false} CleanStartRun(rules: Rules, s: State, steps: seq<Step>, t: State)
    requires Inv(s) && CleanStartInv(s) && Run(rules, s, steps) == Some(t)
    ensures CleanStartInv(t)
    decreases |steps|
  {
    if steps != [] {
      var u := Next(rules, s, steps[0]).value;
      StepInv(rules, s, steps[0], u);
      CleanStartStep(rules, s, steps[0], u);
      hide Next, CleanStartInv, Inv;
      CleanStartRun(rules, u, steps[1..], t);
    }
  }

  /** From the end of Start until Wait drops the command, cleanStart says whether there is a process. */
  lemma CleanStartMeaning(rules: Rules, n: nat, s: State)
    requires Reachable(rules, n, s)
    ensures s.sup.StartRun? || s.sup.StartMark? ==> !s.shared.cleanStart
    ensures AfterStart(s.sup) ==> (s.shared.cleanStart <==> s.shared.cmd.Running?)
  {
    var steps :| Run(rules, Init(n), steps) == Some(s);
    InitInv(n);
    CleanStartRun(rules, Init(n), steps, s);
  }

  /**
   * From the end of an attempt to start Fluent Bit up to the next attempt, cleanStart says whether the
   * attempt succeeded, whatever else happens in between.
   */
  lemma CleanStartRecorded(rules: Rules, n: nat, s: State, launched: bool, steps: seq<Step>, t: State)
    requires Reachable(rules, n, s) && s.sup == StartRun
    requires Run(rules, s, [SupStep(launched)] + steps) == Some(t)
    requires t.shared.totalStarts == s.shared.totalStarts && t.sup != StartMark
    ensures t.shared.cleanStart <==> launched
  {
    CleanStartMeaning(rules, n, s);
    var u := Next(rules, s, SupStep(launched)).value;
    assert ([SupStep(launched)] + steps)[0] == SupStep(launched) && ([SupStep(launched)] + steps)[1..] == steps;
    RecordedRun(rules, u, steps, t, s.shared.totalStarts, launched);
  }

  // ---- totalStarts ----

  /** The number of attempts in the run that failed. */
  function Failures(rules: Rules, s: State, steps: seq<Step>): nat
    decreases |steps|
  {
    if steps == [] then 0
    else match Next(rules, s, steps[0])
         case None => 0
         case Some(t) => (if s.sup == StartRun && steps[0] == SupStep(false) then 1 else 0)
                         + Failures(rules, t, steps[1..])
  }

  /** Attempts that are neither a process nor a failure yet. */
  function Unstarted(s: State): int
  {
    s.shared.totalStarts - |s.shared.procs| - if s.sup == StartRun then 1 else 0
  }

  lemma UnstartedStep(rules: Rules, s: State, step: Step, t: State)
    requires Next(rules, s, step) == Some(t)
    ensures Unstarted(t) == Unstarted(s) + if s.sup == StartRun && step == SupStep(false) then 1 else 0
  {
    if step.SupStep? {
      match s.sup
      case LoopTop =>
      case StartLock =>
      case StartCheck =>
      case StartCreate =>
      case StartFlags =>
      case StartRun =>
      case StartMark =>
      case StartUnlock =>
      case WaitCheck =>
      case WaitClean =>
      case WaitExit =>
      case WaitElapsed =>
      case WaitLock =>
      case WaitClear =>
      case WaitUnlock =>
      case BackoffDelay =>
      case BackoffArm =>
      case BackoffRecv =>
      case BackoffCount =>
    } else {
      OthersKeepStarts(rules, s, step, t);
      hide Next;
    }
  }

  lemma {:induction false} UnstartedRun(rules: Rules, s: State, steps: seq<Step>, t: State)
    requires Run(rules, s, steps) == Some(t)
    ensures Unstarted(t) == Unstarted(s) + Failures(rules, s, steps)
    decreases |steps|
  {
    if steps != [] {
      var u := Next(rules, s, steps[0]).value;
      UnstartedStep(rules, s, steps[0], u);
      hide Next, Unstarted;
      UnstartedRun(rules, u, steps[1..], t);
    }
  }

  /** In every run totalStarts is the number of processes started and of attempts that failed, or are under way. */
  lemma TotalStartsCounts(rules: Rules, n: nat, steps: seq<Step>, t: State)
    requires Run(rules, Init(n), steps) == Some(t)
    ensures t.shared.totalStarts
         == |t.shared.procs| + Failures(rules, Init(n), steps) + if t.sup == StartRun then 1 else 0
  {
    UnstartedRun(rules, Init(n), steps, t);
    hide Next, Failures, Run;
  }

  // ---- What the timer is armed with ----

  /** What backoff arms the timer with, each time it does. */
  function Armings(rules: Rules, s: State, steps: seq<Step>): seq<Due>
    decreases |steps|
  {
    if steps == [] then []
    else match Next(rules, s, steps[0])
         case None => []
         case Some(t) => (if s.sup == BackoffArm && steps[0].SupStep? && t.shared.armed then [t.shared.due] else [])
                         + Armings(rules, t, steps[1..])
  }

  function AfterDelays(counts: seq<nat>): seq<Due>
  {
    seq(|counts|, k requires 0 <= k < |counts| => AfterDelay(counts[k]))
  }

  /** The count that was read and not yet used. */
  function Unused(s: State): seq<nat>
  {
    if s.sup == BackoffArm then [s.delayCount] else []
  }

  lemma ArmingStep(rules: Rules, s: State, step: Step, t: State)
    requires Next(rules, s, step) == Some(t)
    ensures Unused(s) + (if ReadsCount(s, step) then [t.delayCount] else [])
         == (if s.sup == BackoffArm && step.SupStep? then [s.delayCount] else []) + Unused(t)
    ensures s.sup == BackoffArm && step.SupStep? ==> t.shared.armed && t.shared.due == AfterDelay(s.delayCount)
  {
    if step.SupStep? {
      SupPosition(rules, s, step.choice, t);
    } else {
      OthersKeepStarts(rules, s, step, t);
      hide Next;
    }
  }

  lemma ReadThenUsed(unused: seq<nat>, read: seq<nat>, later: seq<nat>, used: seq<nat>, left: seq<nat>)
    requires unused + read == used + left
    ensures AfterDelays(unused + (read + later)) == AfterDelays(used) + AfterDelays(left + later)
  {
    assert unused + (read + later) == (unused + read) + later;
    assert used + (left + later) == (used + left) + later;
    assert AfterDelays(used + (left + later)) == AfterDelays(used) + AfterDelays(left + later);
  }

  lemma AfterOne(count: nat)
    ensures AfterDelays([count]) == [AfterDelay(count)] && AfterDelays([]) == []
  {
  }

  lemma ArmingsFrom(rules: Rules, s: State, steps: seq<Step>, u: State)
    requires steps != [] && Next(rules, s, steps[0]) == Some(u)
    ensures Armings(rules, s, steps)
         == (if s.sup == BackoffArm && steps[0].SupStep? then [AfterDelay(s.delayCount)] else [])
            + Armings(rules, u, steps[1..])
  {
    ArmingStep(rules, s, steps[0], u);
    hide Next, Unused;
  }

  /** In every run backoff arms the timer with the delay of each count that it reads, in order. */
  lemma {:induction false} ArmedAsRead(rules: Rules, s: State, steps: seq<Step>, t: State)
    requires Run(rules, s, steps) == Some(t)
    ensures AfterDelays(Unused(s) + Counts(rules, s, steps)) == Armings(rules, s, steps) + AfterDelays(Unused(t))
    decreases |steps|
  {
    if steps != [] {
      var u := Next(rules, s, steps[0]).value;
      var read := if ReadsCount(s, steps[0]) then [u.delayCount] else [];
      var used := if s.sup == BackoffArm && steps[0].SupStep? then [s.delayCount] else [];
      var later := Counts(rules, u, steps[1..]);
      ArmingStep(rules, s, steps[0], u);
      ArmedAsRead(rules, u, steps[1..], t);
      ReadThenUsed(Unused(s), read, later, used, Unused(u));
      AfterOne(s.delayCount);
      ArmingsFrom(rules, s, steps, u);
      hide Next, Unused, AfterDelays, Armings;
    }
  }

  /** The k-th arming has the delay of the k-th count; a count just read is still to be used. */
  lemma ArmedWithCounts(rules: Rules, s: State, steps: seq<Step>, t: State)
    requires Run(rules, s, steps) == Some(t) && s.sup != BackoffArm
    ensures var counts, armings := Counts(rules, s, steps), Armings(rules, s, steps);
            && |counts| == |armings| + (if t.sup == BackoffArm then 1 else 0)
            && (forall k: nat :: k < |armings| ==> armings[k] == AfterDelay(counts[k]))
            && (t.sup == BackoffArm ==> counts[|armings|] == t.delayCount)
  {
    ArmedAsRead(rules, s, steps, t);
    var counts, armings := Counts(rules, s, steps), Armings(rules, s, steps);
    assert [] + counts == counts;
    hide Counts, Armings, Run;
    assert forall k: nat :: k < |armings| ==> AfterDelays(counts)[k] == armings[k];
    if t.sup == BackoffArm {
      assert AfterDelays(counts)[|armings|] == AfterDelay(t.delayCount);
    }
  }

  // ---- Configuration versions ----

  lemma SupKeepsVersion(rules: Rules, s: State, choice: bool, t: State)
    requires SupNext(rules, s, choice) == Some(t)
    ensures t.version == s.version && t.stoppers == s.stoppers && |s.shared.procs| <= |t.shared.procs|
  {
    match s.sup
    case LoopTop =>
    case StartLock =>
    case StartCheck =>
    case StartCreate =>
    case StartFlags =>
    case StartRun =>
    case StartMark =>
    case StartUnlock =>
    case WaitCheck =>
    case WaitClean =>
    case WaitExit =>
    case WaitElapsed =>
    case WaitLock =>
    case WaitClear =>
    case WaitUnlock =>
    case BackoffDelay =>
    case BackoffArm =>
    case BackoffRecv =>
    case BackoffCount =>
    case Finished =>
  }

  /** The version counts the changes; a stopper takes the version of the moment at which it is called. */
  lemma VersionStep(rules: Rules, s: State, step: Step, t: State)
    requires Next(rules, s, step) == Some(t)
    ensures t.version == s.version + (if step.Change? then 1 else 0)
    ensures |t.stoppers| == |s.stoppers| && |s.shared.procs| <= |t.shared.procs|
    ensures forall i: nat :: i < |s.stoppers| ==>
              t.stoppers[i].seen == if step == StopStep(i) && s.stoppers[i].pc == Idle then s.version
                                    else s.stoppers[i].seen
  {
    if step.SupStep? {
      SupKeepsVersion(rules, s, step.choice, t);
    } else if step.StopStep? {
      StopKeepsCount(rules, s, step.id, t);
      match s.stoppers[step.id].pc
      case Idle =>
      case StopLock =>
      case StopCheck =>
      case StopFlag =>
      case StopKill =>
      case StopUnlock =>
      case TimerStop =>
      case TimerDrain =>
      case TimerReset =>
      case CountReset =>
    }
  }

  function Changes(steps: seq<Step>): nat
  {
    if steps == [] then 0 else (if steps[0].Change? then 1 else 0) + Changes(steps[1..])
  }

  lemma {:induction false} VersionCounts(rules: Rules, s: State, steps: seq<Step>, t: State)
    requires Run(rules, s, steps) == Some(t)
    ensures t.version == s.version + Changes(steps)
    decreases |steps|
  {
    if steps != [] {
      var u := Next(rules, s, steps[0]).value;
      VersionStep(rules, s, steps[0], u);
      hide Next;
      VersionCounts(rules, u, steps[1..], t);
    }
  }

  /** Version v has come, and stopper i was called since. */
  predicate ServesFrom(s: State, i: nat, v: nat, base: nat)
  {
    i < |s.stoppers| && v <= s.version && v <= s.stoppers[i].seen && base <= |s.shared.procs|
  }

  lemma {:induction false} ServesRun(rules: Rules, s: State, steps: seq<Step>, t: State, i: nat, v: nat, base: nat)
    requires Run(rules, s, steps) == Some(t) && ServesFrom(s, i, v, base)
    ensures ServesFrom(t, i, v, base)
    decreases |steps|
  {
    if steps != [] {
      var u := Next(rules, s, steps[0]).value;
      VersionStep(rules, s, steps[0], u);
      hide Next;
      ServesRun(rules, u, steps[1..], t, i, v, base);
    }
  }

  lemma {:induction false} ProcessesStay(rules: Rules, s: State, steps: seq<Step>, t: State)
    requires Run(rules, s, steps) == Some(t)
    ensures |s.stoppers| == |t.stoppers| && |s.shared.procs| <= |t.shared.procs|
    decreases |steps|
  {
    if steps != [] {
      var u := Next(rules, s, steps[0]).value;
      VersionStep(rules, s, steps[0], u);
      hide Next;
      ProcessesStay(rules, u, steps[1..], t);
    }
  }

  /**
   * A configuration change takes effect: once a stopper that was called after the change is through with
   * Stop, every process that runs was started after the change.
   */
  lemma ChangeTakesEffect(rules: Rules, n: nat, s: State, before: seq<Step>, b: State, i: nat,
                          during: seq<Step>, d: State, after: seq<Step>, e: State, p: nat)
    requires Reachable(rules, n, s) && Run(rules, s, [Change] + before) == Some(b)
    requires i < |b.stoppers| && b.stoppers[i].pc == Idle
    requires Run(rules, b, [StopStep(i)] + during) == Some(d)
    requires i < |d.stoppers| && d.stoppers[i].pc == StopUnlock
    requires Run(rules, d, after) == Some(e) && p < |e.shared.procs| && e.shared.procs[p].status == Alive
    ensures p >= |s.shared.procs| && e.shared.procs[p].version > s.version
  {
    ReachableRun(rules, n, s, [Change] + before, b);
    ReachableRun(rules, n, b, [StopStep(i)] + during, d);
    CalledAfter(rules, s, before, b, i, during, d);
    hide *;
    RestartIsFresh(rules, n, d, i, after, e, p);
  }

  lemma CalledAfter(rules: Rules, s: State, before: seq<Step>, b: State, i: nat, during: seq<Step>, d: State)
    requires Run(rules, s, [Change] + before) == Some(b) && i < |b.stoppers| && b.stoppers[i].pc == Idle
    requires Run(rules, b, [StopStep(i)] + during) == Some(d)
    ensures i < |d.stoppers| && s.version < d.stoppers[i].seen && |s.shared.procs| <= |d.shared.procs|
  {
    assert ([Change] + before)[0] == Change && ([Change] + before)[1..] == before;
    assert ([StopStep(i)] + during)[0] == StopStep(i) && ([StopStep(i)] + during)[1..] == during;
    var a, c := Next(rules, s, Change).value, Next(rules, b, StopStep(i)).value;
    VersionStep(rules, s, Change, a);
    VersionStep(rules, b, StopStep(i), c);
    VersionCounts(rules, a, before, b);
    ProcessesStay(rules, a, before, b);
    hide Next, Changes;
    ServesRun(rules, c, during, d, i, s.version + 1, |s.shared.procs|);
  }
}
