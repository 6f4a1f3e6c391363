/**
 * The Fluent Bit supervisor (pkg/fluent/watcher.go) as a transition system: one supervisor loop
 * running Start, Wait and backoff, and any number of stoppers (configuration watcher, TLS watcher,
 * shutdown), each running Stop and then resetTimer. Each step is one statement, or several that no
 * other party can observe apart. Reads outside the mutex are separate steps.
 */
module Supervisor {
  import opened Wrappers

  /** A child process: running, sent SIGKILL, or gone. */
  datatype Status = Alive | Killed | Dead

  /** `version` counts the configuration changes made before the process was started. */
  datatype Proc = Proc(status: Status, version: nat)

  /** fb.cmd: nil, a command without a process, or a command whose process was started. */
  datatype Cmd = NoCmd | Created | Running(pid: nat)

  datatype Owner = Free | Super | Stop(id: nat)

  /** Timer channels as of Go 1.23, and the buffered channels before. */
  datatype Rules = SyncChannel | BufferedChannel

  /** When the timer fires: at once, or after the delay of a restart count. */
  datatype Due = AtOnce | AfterDelay(count: nat)

  /** What the parties share: the fields of Config, the processes, and the timer. */
  datatype Shared = Shared(
    cmd: Cmd,
    procs: seq<Proc>,
    cleanStop: bool,
    cleanStart: bool,
    totalStarts: nat,
    restartTimes: nat,
    armed: bool,
    due: Due,
    tick: bool)

  datatype SupPc =
    | LoopTop
    | StartLock | StartCheck | StartCreate | StartFlags | StartRun | StartMark | StartUnlock
    | WaitCheck | WaitClean | WaitExit | WaitElapsed | WaitLock | WaitClear | WaitUnlock
    | BackoffDelay | BackoffArm | BackoffRecv | BackoffCount
    | Finished

  datatype StopPc =
    | Idle
    | StopLock | StopCheck | StopFlag | StopKill | StopUnlock
    | TimerStop | TimerDrain | TimerReset | CountReset

  /** `seen` is the configuration version at the event a stopper is serving. */
  datatype Stopper = Stopper(pc: StopPc, seen: nat)

  datatype State = State(
    shared: Shared,
    mutex: Owner,
    sup: SupPc,
    delayCount: nat,
    stoppers: seq<Stopper>,
    cancelled: bool,
    version: nat,
    served: nat)

  /** `choice` resolves what the program does not determine: whether exec succeeds, whether ten minutes passed. */
  datatype Step =
    | SupStep(choice: bool)
    | StopStep(id: nat)
    | Fire
    | Exit(pid: nat)
    | Change
    | Cancel

  // ---- Effects on the shared part ----

  function Launch(s: Shared, version: nat): Shared
  {
    s.(procs := s.procs + [Proc(Alive, version)], cmd := Running(|s.procs|))
  }

  function Kill(s: Shared): Shared
  {
    if s.cmd.Running? && s.cmd.pid < |s.procs| && s.procs[s.cmd.pid].status == Alive
    then s.(procs := s.procs[s.cmd.pid := s.procs[s.cmd.pid].(status := Killed)])
    else s
  }

  /** timer.Reset */
  function ResetTimer(rules: Rules, s: Shared, due: Due): Shared
  {
    s.(armed := true, due := due, tick := s.tick && rules == BufferedChannel)
  }

  /** timer.Stop: the new state and the result. */
  function StopTimer(rules: Rules, s: Shared): (Shared, bool)
  {
    match rules
    case SyncChannel => (s.(armed := false, tick := false), s.armed || s.tick)
    case BufferedChannel => (s.(armed := false), s.armed)
  }

  predicate HasExited(s: Shared)
  {
    s.cmd.Created? || (s.cmd.Running? && s.cmd.pid < |s.procs| && s.procs[s.cmd.pid].status == Dead)
  }

  // ---- Steps ----

  function SupNext(rules: Rules, s: State, choice: bool): Option<State>
  {
    var sh := s.shared;
    match s.sup
    case LoopTop => Some(s.(sup := if s.cancelled then Finished else StartLock))
    case StartLock => if s.mutex.Free? then Some(s.(mutex := Super, sup := StartCheck)) else None
    case StartCheck => Some(s.(sup := if sh.cmd.NoCmd? then StartCreate else StartUnlock))
    case StartCreate => Some(s.(shared := sh.(cmd := Created), sup := StartFlags))
    case StartFlags =>
      Some(s.(shared := sh.(totalStarts := sh.totalStarts + 1, cleanStop := false, cleanStart := false),
              sup := StartRun))
    case StartRun =>
      if choice then Some(s.(shared := Launch(sh, s.version), sup := StartMark))
      else Some(s.(shared := sh.(cmd := NoCmd), sup := StartUnlock))
    case StartMark => Some(s.(shared := sh.(cleanStart := true), sup := StartUnlock))
    case StartUnlock => Some(s.(mutex := Free, sup := WaitCheck))
    case WaitCheck => Some(s.(sup := if sh.cmd.NoCmd? then BackoffDelay else WaitClean))
    case WaitClean => Some(s.(sup := if sh.cleanStop then WaitElapsed else WaitExit))
    case WaitExit => if HasExited(sh) then Some(s.(sup := WaitElapsed)) else None
    case WaitElapsed =>
      Some(s.(shared := sh.(restartTimes := if choice then 0 else sh.restartTimes), sup := WaitLock))
    case WaitLock => if s.mutex.Free? then Some(s.(mutex := Super, sup := WaitClear)) else None
    case WaitClear => Some(s.(shared := sh.(cmd := NoCmd), sup := WaitUnlock))
    case WaitUnlock => Some(s.(mutex := Free, sup := BackoffDelay))
    case BackoffDelay => Some(s.(delayCount := sh.restartTimes, sup := BackoffArm))
    case BackoffArm => Some(s.(shared := ResetTimer(rules, sh, AfterDelay(s.delayCount)), sup := BackoffRecv))
    case BackoffRecv => if sh.tick then Some(s.(shared := sh.(tick := false), sup := BackoffCount)) else None
    case BackoffCount => Some(s.(shared := sh.(restartTimes := sh.restartTimes + 1), sup := LoopTop))
    case Finished => None
  }

  function At(s: State, i: nat, pc: StopPc): State
    requires i < |s.stoppers|
  {
    s.(stoppers := s.stoppers[i := s.stoppers[i].(pc := pc)])
  }

  function StopNext(rules: Rules, s: State, i: nat): Option<State>
    requires i < |s.stoppers|
  {
    var sh := s.shared;
    match s.stoppers[i].pc
    case Idle => Some(s.(stoppers := s.stoppers[i := Stopper(StopLock, s.version)]))
    case StopLock => if s.mutex.Free? then Some(At(s, i, StopCheck).(mutex := Stop(i))) else None
    case StopCheck => Some(At(s, i, if sh.cmd.Running? then StopFlag else StopUnlock))
    case StopFlag => Some(At(s, i, StopKill).(shared := sh.(cleanStop := true)))
    case StopKill => Some(At(s, i, StopUnlock).(shared := Kill(sh)))
    case StopUnlock =>
      Some(At(s, i, TimerStop).(mutex := Free,
                                served := if s.served < s.stoppers[i].seen then s.stoppers[i].seen else s.served))
    case TimerStop =>
      var (sh', stopped) := StopTimer(rules, sh);
      Some(At(s, i, if stopped then TimerReset else TimerDrain).(shared := sh'))
    case TimerDrain => if sh.tick then Some(At(s, i, TimerReset).(shared := sh.(tick := false))) else None
    case TimerReset => Some(At(s, i, CountReset).(shared := ResetTimer(rules, sh, AtOnce)))
    case CountReset => Some(At(s, i, Idle).(shared := sh.(restartTimes := 0)))
  }

  function Next(rules: Rules, s: State, step: Step): Option<State>
  {
    var sh := s.shared;
    match step
    case SupStep(choice) => SupNext(rules, s, choice)
    case StopStep(i) => if i < |s.stoppers| then StopNext(rules, s, i) else None
    case Fire => if sh.armed then Some(s.(shared := sh.(armed := false, tick := true))) else None
    case Exit(p) =>
      if p < |sh.procs| && sh.procs[p].status != Dead
      then Some(s.(shared := sh.(procs := sh.procs[p := sh.procs[p].(status := Dead)]))) else None
    case Change => Some(s.(version := s.version + 1))
    case Cancel => Some(s.(cancelled := true))
  }

  /** The state after the steps, or nothing if one of them is not enabled. */
  function Run(rules: Rules, s: State, steps: seq<Step>): Option<State>
    decreases |steps|
  {
    if steps == [] then Some(s)
    else match Next(rules, s, steps[0])
         case None => None
         case Some(s') => Run(rules, s', steps[1..])
  }

  function Init(n: nat): State
  {
    State(Shared(NoCmd, [], false, false, 0, 0, true, AtOnce, false), Free, LoopTop, 0,
          seq(n, _ => Stopper(Idle, 0)), false, 0, 0)
  }

  ghost predicate Reachable(rules: Rules, n: nat, s: State)
  {
    exists steps :: Run(rules, Init(n), steps) == Some(s)
  }
}
