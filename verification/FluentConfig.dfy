/**
 * The Config object of pkg/fluent/watcher.go and its operations, each as the sequence of statements the
 * source executes. What an operation does to the shared state is stated by a function of that state, and
 * each such function is shown to be a run of the transition system in which only that party moves.
 */
module FluentConfig {
  import opened Supervisor
  import opened SupervisorInvariant
  import opened SupervisorTheorems
  import opened Backoff
  import opened RunDelays
  import opened Wrappers

  // ---- What the operations do ----

  function Started(s: Shared, launched: bool, version: nat): Shared
  {
    if !s.cmd.NoCmd? then s
    else
      var flagged := s.(totalStarts := s.totalStarts + 1, cleanStop := false, cleanStart := launched);
      if launched then Launch(flagged, version) else flagged
  }

  /** The process of fb.cmd, if it has one, is gone. */
  function Exited(s: Shared): Shared
  {
    if s.cmd.Running? && s.cmd.pid < |s.procs|
    then s.(procs := s.procs[s.cmd.pid := s.procs[s.cmd.pid].(status := Dead)])
    else s
  }

  function Waited(s: Shared, tenMinutes: bool): Shared
  {
    if s.cmd.NoCmd? then s
    else (if s.cleanStop then s else Exited(s)).(cmd := NoCmd, restartTimes := if tenMinutes then 0 else s.restartTimes)
  }

  /** A tick left in a buffered channel ends the backoff at once and leaves the timer running. */
  function BackedOff(rules: Rules, s: Shared): Shared
  {
    s.(armed := s.tick && rules.BufferedChannel?, due := AfterDelay(s.restartTimes), tick := false,
       restartTimes := s.restartTimes + 1)
  }

  function Stopped(s: Shared): Shared
  {
    if s.cmd.Running? then Kill(s.(cleanStop := true)) else s
  }

  /** None: the call waits for a tick that only another party can cause. */
  function TimerWasReset(rules: Rules, s: Shared): Option<Shared>
  {
    if s.armed || s.tick
    then Some(s.(armed := true, due := AtOnce, tick := rules.BufferedChannel? && s.armed && s.tick, restartTimes := 0))
    else None
  }

  /** How one turn of the supervisor loop went. */
  datatype Outcome = Outcome(launched: bool, version: nat, tenMinutes: bool)

  function Ran(s: Shared, o: Outcome): Shared
  {
    Waited(Started(s, o.launched, o.version), o.tenMinutes)
  }

  function Rounds(rules: Rules, s: Shared, outcomes: seq<Outcome>): Shared
  {
    if outcomes == [] then s
    else BackedOff(rules, Ran(Rounds(rules, s, outcomes[..|outcomes| - 1]), outcomes[|outcomes| - 1]))
  }

  /** The count that each backoff reads. */
  function ReadCounts(rules: Rules, s: Shared, outcomes: seq<Outcome>): (r: seq<nat>)
    ensures |r| == |outcomes|
  {
    if outcomes == [] then []
    else
      var before := outcomes[..|outcomes| - 1];
      ReadCounts(rules, s, before) + [Ran(Rounds(rules, s, before), outcomes[|outcomes| - 1]).restartTimes]
  }

  lemma OneMoreTurn(rules: Rules, s: Shared, outcomes: seq<Outcome>, i: nat)
    requires i < |outcomes|
    ensures var ran := Ran(Rounds(rules, s, outcomes[..i]), outcomes[i]);
            && Rounds(rules, s, outcomes[..i + 1]) == BackedOff(rules, ran)
            && ReadCounts(rules, s, outcomes[..i + 1]) == ReadCounts(rules, s, outcomes[..i]) + [ran.restartTimes]
  {
    assert outcomes[..i + 1][..i] == outcomes[..i];
    hide Ran, BackedOff;
  }

  // ---- The object ----

  class Config {
    const rules: Rules
    var cmd: Cmd
    var restartTimes: nat
    var totalStarts: nat
    var cleanStop: bool
    var cleanStart: bool
    /** fb.timer: running, and its channel holding a tick. */
    var armed: bool
    var due: Due
    var tick: bool
    /** The processes the operating system has started for this object. */
    var procs: seq<Proc>

    ghost function View(): Shared
      reads this
    {
      Shared(cmd, procs, cleanStop, cleanStart, totalStarts, restartTimes, armed, due, tick)
    }

    /** NewFluentBitConfig: the object is the one the transition system starts from. */
    constructor (rules: Rules)
      ensures View() == Init(0).shared && this.rules == rules
      ensures cmd == NoCmd && procs == [] && restartTimes == totalStarts == 0 && !cleanStop && !cleanStart
      ensures armed && due == AtOnce && !tick
    {
      this.rules := rules;
      cmd := NoCmd;
      restartTimes := 0;
      armed, due, tick := true, AtOnce, false;
      totalStarts := 0;
      cleanStop, cleanStart := false, false;
      procs := [];
    }

    /** `launched` says whether the operating system could start the process. */
    method Start(launched: bool, version: nat)
      modifies this
      ensures View() == Started(old(View()), launched, version)
      ensures !old(cmd).NoCmd? ==> unchanged(this)
      ensures unchanged(this`restartTimes, this`armed, this`due, this`tick)
      ensures old(cmd).NoCmd? ==> totalStarts == old(totalStarts) + 1 && !cleanStop
      ensures old(cmd).NoCmd? ==> (cleanStart <==> cmd.Running?) && (cmd.Running? <==> launched)
      ensures old(cmd).NoCmd? && launched ==> cmd == Running(|old(procs)|)
      ensures old(cmd).NoCmd? && launched ==> procs == old(procs) + [Proc(Alive, version)]
      ensures !launched ==> cmd == old(cmd) && procs == old(procs)
    {
      if cmd != NoCmd {
        return;
      }
      cmd := Created;
      totalStarts := totalStarts + 1;
      cleanStop := false;
      cleanStart := false;
      if !launched {
        cmd := NoCmd;
        return;
      }
      procs := procs + [Proc(Alive, version)];
      cmd := Running(|procs| - 1);
      cleanStart := true;
    }

    /** `tenMinutes` says whether at least resetTime went by in the call. */
    method Wait(tenMinutes: bool)
      modifies this
      ensures View() == Waited(old(View()), tenMinutes)
      ensures cmd == NoCmd && (old(cmd).NoCmd? ==> unchanged(this))
      ensures unchanged(this`totalStarts, this`cleanStop, this`cleanStart, this`armed, this`due, this`tick)
      ensures !old(cmd).NoCmd? ==> restartTimes == if tenMinutes then 0 else old(restartTimes)
      ensures |procs| == |old(procs)|
      ensures forall p: nat :: p < |procs| ==>
                procs[p].version == old(procs)[p].version
                && procs[p].status == if old(cmd) == Running(p) && !cleanStop then Dead else old(procs)[p].status
    {
      if cmd == NoCmd {
        return;
      }
      if !cleanStop {
        match cmd
        case Running(pid) =>
          if pid < |procs| {
            procs := procs[pid := procs[pid].(status := Dead)];
          }
        case _ =>
      }
      if tenMinutes {
        restartTimes := 0;
      }
      cmd := NoCmd;
    }

    /** The delay is what the timer is armed with. */
    method Backoff(overflow: int) returns (delay: int)
      modifies this
      ensures View() == BackedOff(rules, old(View()))
      ensures delay == Delay(old(restartTimes), overflow)
      ensures unchanged(this`cmd, this`procs, this`totalStarts, this`cleanStop, this`cleanStart)
      ensures restartTimes == old(restartTimes) + 1 && due == AfterDelay(old(restartTimes))
      ensures !tick && (armed <==> old(tick) && rules == BufferedChannel)
    {
      delay := Delay(restartTimes, overflow);
      armed, due := true, AfterDelay(restartTimes);
      if rules == SyncChannel {
        tick := false;
      }
      if !tick {
        armed, tick := false, true;
      }
      tick := false;
      restartTimes := restartTimes + 1;
    }

    method Stop()
      modifies this
      ensures View() == Stopped(old(View()))
      ensures !cmd.Running? ==> unchanged(this)
      ensures unchanged(this`cmd, this`restartTimes, this`totalStarts, this`cleanStart)
      ensures unchanged(this`armed, this`due, this`tick)
      ensures cmd.Running? ==> cleanStop
      ensures |procs| == |old(procs)|
      ensures forall p: nat :: p < |procs| ==>
                procs[p].version == old(procs)[p].version
                && procs[p].status == if cmd == Running(p) && old(procs)[p].status == Alive then Killed
                                      else old(procs)[p].status
    {
      match cmd
      case Running(pid) =>
        cleanStop := true;
        if pid < |procs| && procs[pid].status == Alive {
          procs := procs[pid := procs[pid].(status := Killed)];
        }
      case _ =>
    }

    /** Whether the call returns when nobody else touches the timer, and if so what it leaves behind. */
    method ResetTimer() returns (returned: bool)
      modifies this
      ensures returned == TimerWasReset(rules, old(View())).Some?
      ensures returned ==> View() == TimerWasReset(rules, old(View())).value
      ensures returned <==> old(armed) || old(tick)
      ensures unchanged(this`cmd, this`procs, this`totalStarts, this`cleanStop, this`cleanStart)
      ensures returned ==> restartTimes == 0 && armed && due == AtOnce
      ensures returned ==> (tick <==> rules == BufferedChannel && old(armed) && old(tick))
      ensures !returned ==> unchanged(this)
    {
      var stopped := armed || (tick && rules == SyncChannel);
      armed := false;
      if rules == SyncChannel {
        tick := false;
      }
      if !stopped {
        if !tick {
          return false;
        }
        tick := false;
      }
      armed, due := true, AtOnce;
      restartTimes := 0;
      return true;
    }

    /** The loop of addFluentBitWatcher, for as many turns as there are outcomes. */
    method Supervise(outcomes: seq<Outcome>, overflow: int) returns (delays: seq<int>)
      modifies this
      ensures View() == Rounds(rules, old(View()), outcomes)
      ensures delays == Delays(ReadCounts(rules, old(View()), outcomes), overflow)
    {
      delays := [];
      for i := 0 to |outcomes|
        invariant View() == Rounds(rules, old(View()), outcomes[..i])
        invariant delays == Delays(ReadCounts(rules, old(View()), outcomes[..i]), overflow)
      {
        hide Started, Waited, BackedOff, Rounds, ReadCounts, Delays, Delay;
        OneMoreTurn(rules, old(View()), outcomes, i);
        Start(outcomes[i].launched, outcomes[i].version);
        Wait(outcomes[i].tenMinutes);
        DelaysAppended(ReadCounts(rules, old(View()), outcomes[..i]), restartTimes, overflow);
        var delay := Backoff(overflow);
        delays := delays + [delay];
      }
      assert outcomes[..|outcomes|] == outcomes;
    }
  }

  // ---- The operations as runs of the transition system ----

  /** The supervisor's own steps, and what the operating system does for it. */
  predicate Alone(steps: seq<Step>)
  {
    forall k :: 0 <= k < |steps| ==> steps[k].SupStep? || steps[k].Fire? || steps[k].Exit?
  }

  lemma Then(rules: Rules, s: State, steps: seq<Step>, t: State, step: Step) returns (steps': seq<Step>, t': State)
    requires Run(rules, s, steps) == Some(t) && Next(rules, t, step).Some? && Alone(steps)
    requires step.SupStep? || step.Fire? || step.Exit?
    ensures Run(rules, s, steps') == Some(t') && t' == Next(rules, t, step).value && Alone(steps')
  {
    steps', t' := Extend(rules, s, steps, t, step);
  }

  lemma Begin(rules: Rules, s: State)
    ensures Run(rules, s, []) == Some(s) && Alone([])
  {
    NoSteps(rules, s);
  }

  lemma CommandCreated(rules: Rules, s: State, steps: seq<Step>, t: State) returns (steps': seq<Step>, t': State)
    requires Run(rules, s, steps) == Some(t) && Alone(steps) && t.sup == StartCreate
    ensures Run(rules, s, steps') == Some(t') && Alone(steps')
    ensures t' == t.(shared := t.shared.(cmd := Created, totalStarts := t.shared.totalStarts + 1,
                                         cleanStop := false, cleanStart := false), sup := StartRun)
  {
    hide Run, Alone;
    steps', t' := Then(rules, s, steps, t, SupStep(false));
    steps', t' := Then(rules, s, steps', t', SupStep(false));
  }

  lemma CommandStarted(rules: Rules, s: State, steps: seq<Step>, t: State, launched: bool)
    returns (steps': seq<Step>, t': State)
    requires Run(rules, s, steps) == Some(t) && Alone(steps) && t.sup == StartCreate && t.shared.cmd.NoCmd?
    ensures Run(rules, s, steps') == Some(t') && Alone(steps')
    ensures t' == t.(shared := Started(t.shared, launched, t.version), sup := StartUnlock)
  {
    hide Run, Alone;
    steps', t' := CommandCreated(rules, s, steps, t);
    steps', t' := Then(rules, s, steps', t', SupStep(launched));
    if launched {
      steps', t' := Then(rules, s, steps', t', SupStep(false));
    }
  }

  lemma StartAlone(rules: Rules, s: State, launched: bool) returns (steps: seq<Step>)
    requires s.sup == StartLock && s.mutex == Free
    ensures Alone(steps)
    ensures Run(rules, s, steps) == Some(s.(shared := Started(s.shared, launched, s.version), sup := WaitCheck))
  {
    hide Run, Alone;
    Begin(rules, s);
    var t;
    steps, t := Then(rules, s, [], s, SupStep(false));
    steps, t := Then(rules, s, steps, t, SupStep(false));
    if s.shared.cmd.NoCmd? {
      hide Started;
      steps, t := CommandStarted(rules, s, steps, t, launched);
    }
    steps, t := Then(rules, s, steps, t, SupStep(false));
  }

  /** The process that Wait waits for exits, unless it already has. */
  lemma ProcessExits(rules: Rules, s: State, steps: seq<Step>, t: State) returns (steps': seq<Step>, t': State)
    requires Run(rules, s, steps) == Some(t) && Alone(steps)
    requires t.sup == WaitExit && t.shared.cmd.Running? && t.shared.cmd.pid < |t.shared.procs|
    ensures Run(rules, s, steps') == Some(t') && Alone(steps')
    ensures t' == t.(shared := Exited(t.shared), sup := WaitElapsed)
  {
    hide Run, Alone;
    var pid := t.shared.cmd.pid;
    steps', t' := steps, t;
    if t.shared.procs[pid].status != Dead {
      steps', t' := Then(rules, s, steps, t, Exit(pid));
    } else {
      assert t.shared.procs[pid := t.shared.procs[pid].(status := Dead)] == t.shared.procs;
    }
    steps', t' := Then(rules, s, steps', t', SupStep(false));
  }

  /** Wait up to the point where the process is gone, or was killed and is not waited for. */
  lemma WaitForExit(rules: Rules, s: State) returns (steps: seq<Step>, t: State)
    requires s.sup == WaitCheck && !s.shared.cmd.NoCmd?
    requires s.shared.cmd.Running? ==> s.shared.cmd.pid < |s.shared.procs|
    ensures Alone(steps) && Run(rules, s, steps) == Some(t)
    ensures t == s.(shared := if s.shared.cleanStop then s.shared else Exited(s.shared), sup := WaitElapsed)
  {
    hide Run, Alone;
    Begin(rules, s);
    t := s;
    steps := [];
    steps, t := Then(rules, s, steps, t, SupStep(false));
    steps, t := Then(rules, s, steps, t, SupStep(false));
    if !s.shared.cleanStop {
      if s.shared.cmd.Running? {
        steps, t := ProcessExits(rules, s, steps, t);
      } else {
        steps, t := Then(rules, s, steps, t, SupStep(false));
      }
    }
  }

  lemma CommandCleared(rules: Rules, s: State, steps: seq<Step>, t: State) returns (steps': seq<Step>, t': State)
    requires Run(rules, s, steps) == Some(t) && Alone(steps) && t.sup == WaitLock && t.mutex == Free
    ensures Run(rules, s, steps') == Some(t') && Alone(steps')
    ensures t' == t.(shared := t.shared.(cmd := NoCmd), sup := BackoffDelay)
  {
    hide Run, Alone;
    steps', t' := Then(rules, s, steps, t, SupStep(false));
    steps', t' := Then(rules, s, steps', t', SupStep(false));
    steps', t' := Then(rules, s, steps', t', SupStep(false));
  }

  lemma WaitAlone(rules: Rules, s: State, tenMinutes: bool) returns (steps: seq<Step>)
    requires s.sup == WaitCheck && s.mutex == Free
    requires s.shared.cmd.Running? ==> s.shared.cmd.pid < |s.shared.procs|
    ensures Alone(steps)
    ensures Run(rules, s, steps) == Some(s.(shared := Waited(s.shared, tenMinutes), sup := BackoffDelay))
  {
    hide Run, Alone;
    var t;
    if s.shared.cmd.NoCmd? {
      Begin(rules, s);
      steps, t := Then(rules, s, [], s, SupStep(false));
    } else {
      steps, t := WaitForExit(rules, s);
      steps, t := Then(rules, s, steps, t, SupStep(tenMinutes));
      steps, t := CommandCleared(rules, s, steps, t);
    }
  }

  /** The delay is read and the timer armed; if the channel is empty the timer fires. */
  lemma TickArrives(rules: Rules, s: State) returns (steps: seq<Step>, t: State)
    requires s.sup == BackoffDelay
    ensures Run(rules, s, steps) == Some(t) && Alone(steps)
    ensures t == s.(shared := s.shared.(armed := s.shared.tick && rules.BufferedChannel?,
                                        due := AfterDelay(s.shared.restartTimes), tick := true),
                    sup := BackoffRecv, delayCount := s.shared.restartTimes)
  {
    hide Run, Alone;
    Begin(rules, s);
    steps, t := Then(rules, s, [], s, SupStep(false));
    steps, t := Then(rules, s, steps, t, SupStep(false));
    if !t.shared.tick {
      steps, t := Then(rules, s, steps, t, Fire);
    }
  }

  lemma BackoffAlone(rules: Rules, s: State) returns (steps: seq<Step>)
    requires s.sup == BackoffDelay
    ensures Alone(steps)
    ensures Run(rules, s, steps) == Some(s.(shared := BackedOff(rules, s.shared), sup := LoopTop,
                                            delayCount := s.shared.restartTimes))
  {
    hide Run, Alone;
    var t;
    steps, t := TickArrives(rules, s);
    steps, t := Then(rules, s, steps, t, SupStep(false));
    steps, t := Then(rules, s, steps, t, SupStep(false));
  }

  /** n steps of stopper i alone. */
  function StopSteps(i: nat, n: nat): seq<Step>
  {
    seq(n, _ => StopStep(i))
  }

  lemma ThenStop(rules: Rules, s: State, i: nat, n: nat, t: State) returns (t': State)
    requires Run(rules, s, StopSteps(i, n)) == Some(t) && Next(rules, t, StopStep(i)).Some?
    ensures Run(rules, s, StopSteps(i, n + 1)) == Some(t') && t' == Next(rules, t, StopStep(i)).value
  {
    RunAppend(rules, s, StopSteps(i, n), t, StopStep(i));
    assert StopSteps(i, n) + [StopStep(i)] == StopSteps(i, n + 1);
    t' := Next(rules, t, StopStep(i)).value;
  }

  lemma StopAlone(rules: Rules, s: State, i: nat) returns (n: nat, t: State)
    requires i < |s.stoppers| && s.stoppers[i].pc == StopLock && s.mutex == Free
    ensures Run(rules, s, StopSteps(i, n)) == Some(t)
    ensures t.shared == Stopped(s.shared) && t.mutex == Free && t.sup == s.sup
    ensures t.stoppers == s.stoppers[i := s.stoppers[i].(pc := TimerStop)] && s.stoppers[i].seen <= t.served
  {
    hide Run, StopSteps;
    assert Run(rules, s, StopSteps(i, 0)) == Some(s) by {
      Begin(rules, s);
      NoStopSteps(i);
    }
    t := ThenStop(rules, s, i, 0, s);
    t := ThenStop(rules, s, i, 1, t);
    n := 2;
    if s.shared.cmd.Running? {
      t := ThenStop(rules, s, i, n, t);
      t := ThenStop(rules, s, i, n + 1, t);
      n := n + 2;
    }
    t := ThenStop(rules, s, i, n, t);
    n := n + 1;
  }

  lemma NoStopSteps(i: nat)
    ensures StopSteps(i, 0) == []
  {
  }

  lemma TimerRearmed(rules: Rules, s: State, i: nat, n: nat, t: State) returns (u: State)
    requires Run(rules, s, StopSteps(i, n)) == Some(t) && i < |t.stoppers| && t.stoppers[i].pc == TimerReset
    ensures Run(rules, s, StopSteps(i, n + 2)) == Some(u)
    ensures u == At(t, i, Idle).(shared := ResetTimer(rules, t.shared, AtOnce).(restartTimes := 0))
  {
    hide Run, StopSteps;
    u := ThenStop(rules, s, i, n, t);
    u := ThenStop(rules, s, i, n + 1, u);
  }

  /** Alone, resetTimer ends exactly as the object's method says, or stays at the receive. */
  lemma ResetTimerAlone(rules: Rules, s: State, i: nat) returns (n: nat, t: State)
    requires i < |s.stoppers| && s.stoppers[i].pc == TimerStop
    ensures Run(rules, s, StopSteps(i, n)) == Some(t) && t.mutex == s.mutex && t.sup == s.sup
    ensures i < |t.stoppers|
    ensures match TimerWasReset(rules, s.shared)
            case Some(after) => t.stoppers[i].pc == Idle && t.shared == after
            case None => t.stoppers[i].pc == TimerDrain && Next(rules, t, StopStep(i)) == None && t.shared == s.shared
  {
    hide Run, StopSteps;
    assert Run(rules, s, StopSteps(i, 0)) == Some(s) by {
      Begin(rules, s);
      NoStopSteps(i);
    }
    t := ThenStop(rules, s, i, 0, s);
    n := 1;
    if t.stoppers[i].pc == TimerDrain && t.shared.tick {
      t := ThenStop(rules, s, i, n, t);
      n := 2;
    }
    if t.stoppers[i].pc == TimerReset {
      t := TimerRearmed(rules, s, i, n, t);
      n := n + 2;
    }
  }

  // ---- Whole turns of the supervisor loop ----

  predicate AtLoopTop(s: State)
  {
    s.sup == LoopTop && s.mutex == Free && !s.cancelled
  }

  /** One turn, from a reachable state and with nobody else moving, gives a reachable state. */
  lemma OneTurn(rules: Rules, n: nat, s: State, o: Outcome) returns (t: State)
    requires Reachable(rules, n, s) && AtLoopTop(s) && o.version == s.version
    ensures Reachable(rules, n, t) && AtLoopTop(t) && t.version == s.version
    ensures t.shared == BackedOff(rules, Ran(s.shared, o))
  {
    ReachableStep(rules, n, s, SupStep(false));
    var u := Next(rules, s, SupStep(false)).value;
    var steps := StartAlone(rules, u, o.launched);
    t := u.(shared := Started(u.shared, o.launched, u.version), sup := WaitCheck);
    ReachableRun(rules, n, u, steps, t);
    ReachableInv(rules, n, t);
    u := t;
    steps := WaitAlone(rules, u, o.tenMinutes);
    t := u.(shared := Waited(u.shared, o.tenMinutes), sup := BackoffDelay);
    ReachableRun(rules, n, u, steps, t);
    u := t;
    steps := BackoffAlone(rules, u);
    t := u.(shared := BackedOff(rules, u.shared), sup := LoopTop, delayCount := u.shared.restartTimes);
    ReachableRun(rules, n, u, steps, t);
  }

  /** What Supervise leaves in the object is what a reachable state of the transition system shares. */
  lemma {:induction false} RoundsReachable(rules: Rules, n: nat, s: State, outcomes: seq<Outcome>) returns (t: State)
    requires Reachable(rules, n, s) && AtLoopTop(s)
    requires forall k :: 0 <= k < |outcomes| ==> outcomes[k].version == s.version
    ensures Reachable(rules, n, t) && AtLoopTop(t) && t.version == s.version
    ensures t.shared == Rounds(rules, s.shared, outcomes)
  {
    if outcomes == [] {
      t := s;
    } else {
      t := RoundsReachable(rules, n, s, outcomes[..|outcomes| - 1]);
      t := OneTurn(rules, n, t, outcomes[|outcomes| - 1]);
    }
  }

  /** Fluent Bit could not be started, or went down within ten minutes. */
  predicate Fails(o: Outcome)
  {
    !o.launched || !o.tenMinutes
  }

  lemma FailedTurn(s: Shared, o: Outcome)
    requires s.cmd.NoCmd? && Fails(o)
    ensures Ran(s, o).cmd.NoCmd? && Ran(s, o).restartTimes == s.restartTimes
    ensures Ran(s, o).totalStarts == s.totalStarts + 1
  {
  }

  /** Each of the failed turns starts Fluent Bit once and counts one more backoff. */
  lemma {:induction false} FailedTurns(rules: Rules, s: Shared, outcomes: seq<Outcome>)
    requires s.cmd.NoCmd? && s.restartTimes == 0
    requires forall k :: 0 <= k < |outcomes| ==> Fails(outcomes[k])
    ensures var t := Rounds(rules, s, outcomes);
            t.cmd.NoCmd? && t.restartTimes == |outcomes| && t.totalStarts == s.totalStarts + |outcomes|
  {
    if outcomes != [] {
      var n := |outcomes| - 1;
      FailedTurns(rules, s, outcomes[..n]);
      FailedTurn(Rounds(rules, s, outcomes[..n]), outcomes[n]);
    }
  }

  lemma {:induction false} CrashCounts(rules: Rules, s: Shared, outcomes: seq<Outcome>)
    requires s.cmd.NoCmd? && s.restartTimes == 0
    requires forall k :: 0 <= k < |outcomes| ==> Fails(outcomes[k])
    ensures Consecutive(ReadCounts(rules, s, outcomes), 0)
  {
    if outcomes != [] {
      var n := |outcomes| - 1;
      CrashCounts(rules, s, outcomes[..n]);
      FailedTurns(rules, s, outcomes[..n]);
      FailedTurn(Rounds(rules, s, outcomes[..n]), outcomes[n]);
      hide Ran, Rounds, Fails;
    }
  }

  /**
   * A crash loop: every turn starts Fluent Bit once, the delay after the k-th failure is Delay(k), and up
   * to the thirty-fourth failure the delays add up to what is promised.
   */
  lemma CrashLoop(rules: Rules, s: Shared, outcomes: seq<Outcome>, overflow: int)
    requires s.cmd.NoCmd? && s.restartTimes == 0 && IsOverflow(overflow)
    requires forall k :: 0 <= k < |outcomes| ==> Fails(outcomes[k])
    ensures Rounds(rules, s, outcomes).totalStarts == s.totalStarts + |outcomes|
    ensures var delays := Delays(ReadCounts(rules, s, outcomes), overflow);
            |delays| == |outcomes| && (forall k: nat :: k < |outcomes| ==> delays[k] == Delay(k, overflow))
    ensures |outcomes| <= 34 ==> Sum(Delays(ReadCounts(rules, s, outcomes), overflow)) == TotalDelay(|outcomes|)
  {
    hide Rounds, ReadCounts, Delay, Delays, Sum, TotalDelay, IsOverflow;
    FailedTurns(rules, s, outcomes);
    CrashCounts(rules, s, outcomes);
    if |outcomes| <= 34 {
      ArmedTotal(ReadCounts(rules, s, outcomes), overflow);
    }
  }

  /** Ten minutes without trouble end the crash loop: the next delay is one second again. */
  lemma TenMinutesReset(rules: Rules, s: Shared, outcomes: seq<Outcome>, overflow: int)
    requires s.cmd.NoCmd? && outcomes != [] && !Fails(outcomes[|outcomes| - 1])
    ensures var delays := Delays(ReadCounts(rules, s, outcomes), overflow);
            |delays| > 0 && delays[|delays| - 1] == SECOND
  {
    RoundsClear(rules, s, outcomes[..|outcomes| - 1]);
    IntendedBounds(0);
    assert Delay(0, overflow) == SECOND;
  }

  /** Every turn ends without a command, whatever happened in it. */
  lemma {:induction false} RoundsClear(rules: Rules, s: Shared, outcomes: seq<Outcome>)
    requires s.cmd.NoCmd?
    ensures Rounds(rules, s, outcomes).cmd.NoCmd?
  {
    if outcomes != [] {
      RoundsClear(rules, s, outcomes[..|outcomes| - 1]);
    }
  }
}
