/**
 * The restart delays over every run, with any number of stoppers resetting the counter in between.
 */
module RunDelays {
  import opened Bits
  import opened Supervisor
  import opened SupervisorTheorems
  import opened TimerResets
  import opened Backoff
  import opened Wrappers

  /** backoff has read the counter and not yet incremented it. */
  predicate InBackoff(pc: SupPc) { pc.BackoffArm? || pc.BackoffRecv? || pc.BackoffCount? }

  /** The count that backoff will read next, if nobody zeroes the counter before. */
  function NextCount(s: State): nat
  {
    s.shared.restartTimes + if InBackoff(s.sup) then 1 else 0
  }

  predicate ReadsCount(s: State, step: Step) { step.SupStep? && s.sup == BackoffDelay }

  /** The counts that backoff reads in the run. */
  function Counts(rules: Rules, s: State, steps: seq<Step>): seq<nat>
    decreases |steps|
  {
    if steps == [] then []
    else match Next(rules, s, steps[0])
         case None => []
         case Some(t) => (if ReadsCount(s, steps[0]) then [t.delayCount] else []) + Counts(rules, t, steps[1..])
  }

  predicate NoZeroing(rules: Rules, s: State, steps: seq<Step>)
    decreases |steps|
  {
    steps == []
    || (!Zeroes(s, steps[0])
        && match Next(rules, s, steps[0])
           case None => true
           case Some(t) => NoZeroing(rules, t, steps[1..]))
  }

  lemma SupPosition(rules: Rules, s: State, choice: bool, t: State)
    requires SupNext(rules, s, choice) == Some(t)
    ensures InBackoff(t.sup) <==> s.sup.BackoffDelay? || s.sup.BackoffArm? || s.sup.BackoffRecv?
    ensures s.sup == BackoffDelay ==> t.delayCount == s.shared.restartTimes
  {
    match s.sup
    case LoopTop =>
    case StartLock =>
    case StartCheck =>
    case StartCreate =>
    case StartFlags =>
    case StartRun =>
    case StartMark =>
    case StartUnlock =>
    case WaitCheck =>
    case WaitClean =>
    case WaitExit =>
    case WaitElapsed =>
    case WaitLock =>
    case WaitClear =>
    case WaitUnlock =>
    case BackoffDelay =>
    case BackoffArm =>
    case BackoffRecv =>
    case BackoffCount =>
    case Finished =>
  }

  lemma OthersPosition(rules: Rules, s: State, step: Step, t: State)
    requires Next(rules, s, step) == Some(t) && !step.SupStep?
    ensures t.sup == s.sup
  {
    if step.StopStep? {
      match s.stoppers[step.id].pc
      case Idle =>
      case StopLock =>
      case StopCheck =>
      case StopFlag =>
      case StopKill =>
      case StopUnlock =>
      case TimerStop =>
      case TimerDrain =>
      case TimerReset =>
      case CountReset =>
    }
  }

  /** A step that zeroes nothing changes the next count only by reading it. */
  lemma NextCountStep(rules: Rules, s: State, step: Step, t: State)
    requires Next(rules, s, step) == Some(t) && !Zeroes(s, step)
    ensures NextCount(t) == NextCount(s) + if ReadsCount(s, step) then 1 else 0
    ensures ReadsCount(s, step) ==> t.delayCount == NextCount(s)
  {
    CounterStep(rules, s, step, t);
    if step.SupStep? {
      SupPosition(rules, s, step.choice, t);
    } else {
      OthersPosition(rules, s, step, t);
    }
    hide Next, SupNext, StopNext;
  }

  predicate Consecutive(counts: seq<nat>, from: nat)
  {
    forall k: nat :: k < |counts| ==> counts[k] == from + k
  }

  /** Over every run without a zeroing the counts read go up by one, from the next count at its start. */
  lemma {:induction false} CountsConsecutive(rules: Rules, s: State, steps: seq<Step>, t: State)
    requires Run(rules, s, steps) == Some(t) && NoZeroing(rules, s, steps)
    ensures Consecutive(Counts(rules, s, steps), NextCount(s))
    ensures NextCount(t) == NextCount(s) + |Counts(rules, s, steps)|
    decreases |steps|
  {
    if steps != [] {
      var u := Next(rules, s, steps[0]).value;
      NextCountStep(rules, s, steps[0], u);
      CountsConsecutive(rules, u, steps[1..], t);
      hide Next, NextCount;
    }
  }

  // ---- The delays ----

  /** What the timer is armed with for each count. */
  function Delays(counts: seq<nat>, overflow: int): (r: seq<int>)
    ensures |r| == |counts| && forall k :: 0 <= k < |r| ==> r[k] == Delay(counts[k], overflow)
  {
    if counts == [] then [] else Delays(counts[..|counts| - 1], overflow) + [Delay(counts[|counts| - 1], overflow)]
  }

  lemma DelaysAppended(counts: seq<nat>, count: nat, overflow: int)
    ensures Delays(counts + [count], overflow) == Delays(counts, overflow) + [Delay(count, overflow)]
  {
    assert (counts + [count])[..|counts|] == counts;
  }

  /** What is promised for each. */
  function Promised(counts: seq<nat>): (r: seq<int>)
    ensures |r| == |counts| && forall k :: 0 <= k < |r| ==> r[k] == Intended(counts[k])
  {
    if counts == [] then [] else Promised(counts[..|counts| - 1]) + [Intended(counts[|counts| - 1])]
  }

  lemma {:induction false} PromisedTotal(counts: seq<nat>, from: nat)
    requires Consecutive(counts, from)
    ensures Sum(Promised(counts)) == TotalDelay(from + |counts|) - TotalDelay(from)
  {
    if counts != [] {
      var n := |counts| - 1;
      PromisedTotal(counts[..n], from);
      SumAppended(Promised(counts[..n]), Intended(counts[n]));
      assert counts[n] == from + n;
      hide Intended, Sum;
    }
  }

  /** Between one second and five minutes, and never shorter than the one before. */
  predicate Grows(delays: seq<int>)
  {
    && (forall k :: 0 <= k < |delays| ==> SECOND <= delays[k] <= MAX_DELAY)
    && (forall k :: 0 <= k < |delays| - 1 ==> delays[k] <= delays[k + 1])
  }

  lemma PromisedGrows(counts: seq<nat>, from: nat)
    requires Consecutive(counts, from)
    ensures Grows(Promised(counts))
  {
    var delays := Promised(counts);
    hide Intended;
    forall k | 0 <= k < |delays|
      ensures SECOND <= delays[k] <= MAX_DELAY
    {
      IntendedBounds(counts[k]);
    }
    forall k | 0 <= k < |delays| - 1
      ensures delays[k] <= delays[k + 1]
    {
      IntendedBounds(counts[k]);
      assert counts[k] == from + k && counts[k + 1] == from + (k + 1);
    }
  }

  lemma DelaysAsPromised(counts: seq<nat>, from: nat, overflow: int)
    requires Consecutive(counts, from) && IsOverflow(overflow) && from + |counts| <= 34
    ensures Delays(counts, overflow) == Promised(counts)
  {
    hide Intended, Delay;
    forall k | 0 <= k < |counts|
      ensures Delays(counts, overflow)[k] == Promised(counts)[k]
    {
      DelayExact(counts[k], overflow);
    }
  }

  lemma NoDelay()
    ensures TotalDelay(0) == 0
  {
  }

  /** The first delays from a zeroed counter. */
  lemma ArmedTotal(counts: seq<nat>, overflow: int)
    requires Consecutive(counts, 0) && IsOverflow(overflow) && |counts| <= 34
    ensures Sum(Delays(counts, overflow)) == TotalDelay(|counts|)
  {
    hide *;
    DelaysAsPromised(counts, 0, overflow);
    PromisedTotal(counts, 0);
    NoDelay();
  }

  /**
   * Over every run without a zeroing, for any number of stoppers: the promised delays start at that of
   * the next count, never decrease, stay between one second and five minutes and add up as stated; and
   * the delays that the timer is armed with are the promised ones up to the count 33.
   */
  lemma DelaysOverRun(rules: Rules, s: State, steps: seq<Step>, t: State, overflow: int)
    requires Run(rules, s, steps) == Some(t) && NoZeroing(rules, s, steps) && IsOverflow(overflow)
    ensures Consecutive(Counts(rules, s, steps), NextCount(s))
    ensures var counts, from := Counts(rules, s, steps), NextCount(s);
            && Grows(Promised(counts))
            && Sum(Promised(counts)) == TotalDelay(from + |counts|) - TotalDelay(from)
            && (from + |counts| <= 34 ==> Delays(counts, overflow) == Promised(counts))
  {
    hide *;
    var counts, from := Counts(rules, s, steps), NextCount(s);
    CountsConsecutive(rules, s, steps, t);
    PromisedTotal(counts, from);
    PromisedGrows(counts, from);
    if from + |counts| <= 34 {
      DelaysAsPromised(counts, from, overflow);
    }
  }

  /** From a zeroed counter outside backoff: the closed form of the sum. */
  lemma DelaysFromZero(rules: Rules, s: State, steps: seq<Step>, t: State)
    requires Run(rules, s, steps) == Some(t) && NoZeroing(rules, s, steps) && NextCount(s) == 0
    ensures var counts := Counts(rules, s, steps);
            && (|counts| <= 9 ==> Sum(Promised(counts)) == (Pow2(|counts|) - 1) * SECOND)
            && (|counts| >= 9 ==> Sum(Promised(counts)) == (511 + 300 * (|counts| - 9)) * SECOND)
  {
    hide *;
    var counts := Counts(rules, s, steps);
    CountsConsecutive(rules, s, steps, t);
    PromisedTotal(counts, 0);
    TotalDelayClosed(|counts|);
    NoDelay();
  }

  /** A zeroing step leaves the count 0 behind, and 1 to be read if it came inside a backoff. */
  lemma CountAfterZeroing(rules: Rules, s: State, step: Step, t: State)
    requires Next(rules, s, step) == Some(t) && Zeroes(s, step)
    ensures NextCount(t) == if InBackoff(s.sup) then 1 else 0
  {
    CounterStep(rules, s, step, t);
    if step.SupStep? {
      SupPosition(rules, s, step.choice, t);
    } else {
      OthersPosition(rules, s, step, t);
    }
    hide Next, SupNext, StopNext;
  }

  /** The first delay after a zeroing is one second exactly if the zeroing came outside backoff, and else two. */
  lemma FirstDelay(rules: Rules, s: State, step: Step, s0: State, steps: seq<Step>, t: State, overflow: int)
    requires Next(rules, s, step) == Some(s0) && Zeroes(s, step)
    requires Run(rules, s0, steps) == Some(t) && NoZeroing(rules, s0, steps) && Counts(rules, s0, steps) != []
    ensures var first := Delays(Counts(rules, s0, steps), overflow)[0];
            && (first == SECOND <==> !InBackoff(s.sup))
            && (InBackoff(s.sup) ==> first == 2 * SECOND)
  {
    CountAfterZeroing(rules, s, step, s0);
    CountsConsecutive(rules, s0, steps, t);
    assert Pow2(0) == 1 && Pow2(1) == 2;
    assert Delay(0, overflow) == SECOND && Delay(1, overflow) == 2 * SECOND;
  }

  /** A stopper finds nothing to stop, and re-arms the timer that backoff waits for. */
  lemma StopperResets(rules: Rules, s: State) returns (t: State)
    requires Reachable(rules, 1, s) && Quiet(s) && s.sup == BackoffRecv
    requires s.shared.cmd == NoCmd && s.shared.armed && !s.shared.tick
    ensures Reachable(rules, 1, t) && t.stoppers == [Stopper(CountReset, 0)] && t.sup == BackoffRecv && t.shared.armed
  {
    hide Reachable, Run;
    t := Go(rules, s, StopStep(0));
    t := Go(rules, t, StopStep(0));
    t := Go(rules, t, StopStep(0));
    t := Go(rules, t, StopStep(0));
    t := Go(rules, t, StopStep(0));
    t := Go(rules, t, StopStep(0));
  }

  /** Both happen: here resetTimer zeroes the counter between the end of a backoff's wait and its increment. */
  lemma ZeroedInBackoff(rules: Rules) returns (s: State)
    ensures Reachable(rules, 1, s) && InBackoff(s.sup)
    ensures Next(rules, s, StopStep(0)).Some? && Zeroes(s, StopStep(0))
  {
    hide Reachable, Run;
    s := TimerArmed(rules);
    s := StopperResets(rules, s);
    s := Go(rules, s, Fire);
    s := Go(rules, s, SupStep(false));
  }

  // ---- A change when the tick is gone ----

  /** No step of the run zeroes the counter, except possibly stopper i's. */
  predicate NoOtherZeroing(rules: Rules, s: State, steps: seq<Step>, i: nat)
    decreases |steps|
  {
    steps == []
    || ((steps[0] == StopStep(i) || !Zeroes(s, steps[0]))
        && match Next(rules, s, steps[0])
           case None => true
           case Some(t) => NoOtherZeroing(rules, t, steps[1..], i))
  }

  /**
   * Stopper i is called when the tick is long gone. Unless somebody else zeroes the counter, the supervisor
   * first backs off with the old count; before it has read that, resetTimer stays at its receive.
   */
  lemma {:induction false} OldCountFirst(rules: Rules, s: State, i: nat, steps: seq<Step>, t: State)
    requires NoTick(s) && s.sup != BackoffArm && i < |s.stoppers| && MustDrain(s.stoppers[i].pc)
    requires Run(rules, s, steps) == Some(t) && NoOtherZeroing(rules, s, steps, i)
    ensures var counts := Counts(rules, s, steps);
            if counts == [] then i < |t.stoppers| && MustDrain(t.stoppers[i].pc) && NextCount(t) == NextCount(s)
            else counts[0] == NextCount(s)
    decreases |steps|
  {
    if steps != [] {
      var u := Next(rules, s, steps[0]).value;
      assert !Zeroes(s, steps[0]);
      NextCountStep(rules, s, steps[0], u);
      NoTickStep(rules, s, steps[0], u);
      hide Next, NoTick, NextCount;
      if !ReadsCount(s, steps[0]) {
        OldCountFirst(rules, u, i, steps[1..], t);
      }
    }
  }

  // ---- What the counter counts ----

  /** The number of backoffs that end in the run. */
  function Backoffs(rules: Rules, s: State, steps: seq<Step>): nat
    decreases |steps|
  {
    if steps == [] then 0
    else match Next(rules, s, steps[0])
         case None => 0
         case Some(t) =>
           (if steps[0].SupStep? && s.sup == BackoffCount then 1 else 0) + Backoffs(rules, t, steps[1..])
  }

  lemma {:induction false} BackoffsCounted(rules: Rules, s: State, steps: seq<Step>, t: State)
    requires Run(rules, s, steps) == Some(t) && NoZeroing(rules, s, steps)
    ensures t.shared.restartTimes == s.shared.restartTimes + Backoffs(rules, s, steps)
    decreases |steps|
  {
    if steps != [] {
      var u := Next(rules, s, steps[0]).value;
      CounterStep(rules, s, steps[0], u);
      hide Next;
      BackoffsCounted(rules, u, steps[1..], t);
    }
  }

  /** The k-th step of the run is a zeroing one. */
  predicate ZeroesAt(rules: Rules, s: State, steps: seq<Step>, k: nat)
    requires k < |steps|
  {
    var r := Run(rules, s, steps[..k]);
    r.Some? && Zeroes(r.value, steps[k])
  }

  /**
   * Every run can be cut at its last zeroing, and restartTimes is then the number of backoffs that end in
   * the second part; without a zeroing, that number in addition to what was there.
   */
  lemma {:induction false} CounterSinceZeroing(rules: Rules, s: State, steps: seq<Step>, t: State)
    returns (k: nat, u: State)
    requires Run(rules, s, steps) == Some(t)
    ensures k <= |steps| && Run(rules, s, steps[..k]) == Some(u) && Run(rules, u, steps[k..]) == Some(t)
    ensures NoZeroing(rules, u, steps[k..]) && (k > 0 ==> ZeroesAt(rules, s, steps, k - 1))
    ensures t.shared.restartTimes
         == (if k > 0 then 0 else s.shared.restartTimes) + Backoffs(rules, u, steps[k..])
    decreases |steps|
  {
    if NoZeroing(rules, s, steps) {
      k, u := 0, s;
      assert steps[..0] == [] && steps[0..] == steps;
      NoSteps(rules, s);
      BackoffsCounted(rules, s, steps, t);
    } else {
      var v := Next(rules, s, steps[0]).value;
      var j, w := CounterSinceZeroing(rules, v, steps[1..], t);
      k, u := j + 1, w;
      assert steps[..k][1..] == steps[1..][..j] && steps[k..] == steps[1..][j..];
      CounterStep(rules, s, steps[0], v);
      if j > 0 {
        assert steps[..k - 1][1..] == steps[1..][..j - 1];
      } else {
        assert steps[..0] == [];
        NoSteps(rules, s);
      }
      hide Next, Backoffs;
    }
  }
}
