/**
 * Memory limits of the inputs (pkg/common/common.go, updateMemoryBufLimits and
 * calculatePerInputMemoryLimit): the container's memory is divided between the plugins of the flattened
 * configuration, and the limit is put into the environment.
 */
module MemLimits {
  import opened ConfigFlattener
  import opened ConfigSections
  import opened Float32
  import opened PluginCounts
  import opened Wrappers

  const MEMORY := "CONTAINER_LIMITS_MEMORY_MEGABYTES"

  const DEFAULTS: map<string, string> := map[
    "MBL_AUDIT" := "false", "MBL_ERLANG" := "false", "MBL_EVENTING" := "false", "MBL_HTTP" := "false",
    "MBL_INDEX" := "false", "MBL_PROJECTOR" := "false", "MBL_JAVA" := "false", "MBL_MEMCACHED" := "false",
    "MBL_PROMETHEUS" := "false", "MBL_REBALANCE" := "false", "MBL_XDCR" := "false", "MBL_QUERY" := "false",
    "MBL_FTS" := "false"]

  /** What the process is given: its files, and the parts of the program that are not modelled. */
  datatype World = World(
    files: Files,
    resolve: Resolve,
    configFile: string,
    auditEnabled: bool,
    variable: string -> string,
    atoi: string -> Option<int>,
    megabytes: int -> string)

  // ---- calculatePerInputMemoryLimit ----

  /** The division of Go, which rounds towards zero. */
  function Quotient(a: int, b: int): int
    requires b > 0
  {
    if a >= 0 then a / b else -(-a / b)
  }

  /** The number of plugins, outputs counted twice, times 1.2. */
  function Divisor(inputs: nat, outputs: nat): nat { TimesSixFifths(inputs + 2 * outputs) }

  function PerInputLimit(totalMemory: int, inputs: nat, outputs: nat): int
    requires inputs + 2 * outputs > 0
  {
    DivisorBounds(inputs, outputs);
    Quotient(totalMemory, Divisor(inputs, outputs))
  }

  lemma DivisorBounds(inputs: nat, outputs: nat)
    requires inputs + 2 * outputs > 0
    ensures Divisor(inputs, outputs) >= inputs + 2 * outputs >= 1
    ensures 10 * Divisor(inputs, outputs) <= 13 * (inputs + 2 * outputs)
  {
    AtLeast(inputs + 2 * outputs);
  }

  lemma DivisionBounds(a: int, d: int)
    requires a >= 0 && d > 0
    ensures a / d >= 0 && (a / d) * d <= a < (a / d + 1) * d
  {
    assert a == (a / d) * d + a % d;
  }

  lemma ProductBound(limit: int, n: int, d: int)
    requires 0 <= limit && 0 <= n <= d
    ensures 0 <= limit * n <= limit * d
  {
  }

  lemma LargerBound(limit: int, n: int, d: int)
    requires 0 <= limit && 10 * d <= 13 * n
    ensures 10 * (limit * d) <= limit * (13 * n)
  {
    assert limit * (10 * d) <= limit * (13 * n);
    assert limit * (10 * d) == 10 * (limit * d);
  }

  /**
   * The limits of all plugins together fit into the memory, also if fewer plugins are enabled than were
   * counted; and with one more for each, 1.3 times the plugins counted would not.
   */
  lemma LimitsFit(totalMemory: int, inputs: nat, outputs: nat, enabled: nat)
    requires inputs + 2 * outputs > 0 && totalMemory >= 0 && enabled <= inputs
    ensures Divisor(inputs, outputs) >= 1
    ensures 0 <= PerInputLimit(totalMemory, inputs, outputs) * (enabled + 2 * outputs) <= totalMemory
    ensures totalMemory < (PerInputLimit(totalMemory, inputs, outputs) + 1) * Divisor(inputs, outputs)
    ensures 10 * totalMemory < (PerInputLimit(totalMemory, inputs, outputs) + 1) * (13 * (inputs + 2 * outputs))
  {
    DivisorBounds(inputs, outputs);
    DivisionBounds(totalMemory, Divisor(inputs, outputs));
    assert PerInputLimit(totalMemory, inputs, outputs) == totalMemory / Divisor(inputs, outputs);
    hide Divisor, PerInputLimit;
    ProductBound(PerInputLimit(totalMemory, inputs, outputs), enabled + 2 * outputs, Divisor(inputs, outputs));
    LargerBound(PerInputLimit(totalMemory, inputs, outputs) + 1, inputs + 2 * outputs, Divisor(inputs, outputs));
  }

  /**
   * Below 2^20 plugins, outputs counted twice, the limit is the memory divided by 6/5 of the plugins, cut to
   * an integer, and cut to an integer itself; for a negative memory too it is cut towards zero.
   */
  lemma LimitExact(totalMemory: int, inputs: nat, outputs: nat)
    requires 0 < inputs + 2 * outputs < 0x10_0000
    ensures 6 * (inputs + 2 * outputs) / 5 > 0
    ensures PerInputLimit(totalMemory, inputs, outputs)
         == if totalMemory >= 0 then totalMemory / (6 * (inputs + 2 * outputs) / 5)
            else -((-totalMemory) / (6 * (inputs + 2 * outputs) / 5))
  {
    Exact(inputs + 2 * outputs);
  }

  // ---- updateMemoryBufLimits ----

  function Get(env: map<string, string>, name: string): string
  {
    if name in env then env[name] else ""
  }

  lemma DefaultsOff()
    ensures DEFAULTS.Keys == {"MBL_AUDIT", "MBL_ERLANG", "MBL_EVENTING", "MBL_HTTP", "MBL_INDEX", "MBL_PROJECTOR",
                              "MBL_JAVA", "MBL_MEMCACHED", "MBL_PROMETHEUS", "MBL_REBALANCE", "MBL_XDCR",
                              "MBL_QUERY", "MBL_FTS"}
    ensures forall name :: name in DEFAULTS ==> DEFAULTS[name] == "false"
  {
  }

  /** os.Setenv, which refuses an empty name. */
  function Set(env: map<string, string>, name: string, value: string): map<string, string>
  {
    if name == "" then env else env[name := value]
  }

  function SetAll(env: map<string, string>, names: seq<string>, value: string): map<string, string>
  {
    if names == [] then env else Set(SetAll(env, names[..|names| - 1], value), names[|names| - 1], value)
  }

  /** Exactly the named variables get the value. */
  lemma {:induction false} SetAllGet(env: map<string, string>, names: seq<string>, value: string, name: string)
    ensures Get(SetAll(env, names, value), name) == if name in names && name != "" then value else Get(env, name)
  {
    if names != [] {
      SetAllGet(env, names[..|names| - 1], value, name);
    }
  }

  /** How a call ended: it returned, or it ended the process. */
  datatype Ending = Returned | Fatal

  function EnvironmentOf(w: World, env: map<string, string>): Environment
  {
    Environment(w.auditEnabled, w.variable, name => Get(env, name))
  }

  /** The plugins and limit variables of a configuration, as counted. */
  ghost predicate Counted(e: Environment, lines: seq<Line>, config: MembufLimitConfig)
  {
    var inputs := Named(Sections(lines), "[INPUT]");
    && config.numInputs == NumInputs(e, inputs) && config.memBufLimitNames == AllLimitNames(e, inputs)
    && config.numInputs >= EnabledInputs(e, inputs)
    && config.numOutputs == ActiveOutputs(e, Named(Sections(lines), "[OUTPUT]"))
  }

  /** What the enabled inputs and the active outputs may use together is within the container's memory. */
  lemma PluginsFit(e: Environment, lines: seq<Line>, config: MembufLimitConfig, memory: int)
    requires Counted(e, lines, config) && config.numInputs + 2 * config.numOutputs > 0 && memory >= 0
    ensures var enabled := EnabledInputs(e, Named(Sections(lines), "[INPUT]"));
            var active := ActiveOutputs(e, Named(Sections(lines), "[OUTPUT]"));
            0 <= PerInputLimit(memory, config.numInputs, config.numOutputs) * (enabled + 2 * active) <= memory
  {
    LimitsFit(memory, config.numInputs, config.numOutputs, EnabledInputs(e, Named(Sections(lines), "[INPUT]")));
  }

  /** The environment afterwards: unchanged if nothing was counted or no variable found. */
  function Updated(w: World, memory: int, config: MembufLimitConfig, env: map<string, string>): map<string, string>
  {
    if config.numInputs + 2 * config.numOutputs == 0 || config.memBufLimitNames == [] then env
    else
      SetAll(env, config.memBufLimitNames, w.megabytes(PerInputLimit(memory, config.numInputs, config.numOutputs)))
  }

  /**
   * After an update every named variable holds one limit, and what that limit allows the enabled inputs
   * and the active outputs together is within the container's memory. Every other variable is as before.
   */
  lemma UpdateFits(w: World, e: Environment, lines: seq<Line>, memory: int, config: MembufLimitConfig,
                   env: map<string, string>) returns (limit: int)
    requires Counted(e, lines, config) && memory >= 0
    requires config.numInputs + 2 * config.numOutputs > 0 && config.memBufLimitNames != []
    ensures var enabled := EnabledInputs(e, Named(Sections(lines), "[INPUT]"));
            var active := ActiveOutputs(e, Named(Sections(lines), "[OUTPUT]"));
            0 <= limit * (enabled + 2 * active) <= memory
    ensures forall name :: name in config.memBufLimitNames && name != ""
                       ==> Get(Updated(w, memory, config, env), name) == w.megabytes(limit)
    ensures forall name :: name !in config.memBufLimitNames || name == ""
                       ==> Get(Updated(w, memory, config, env), name) == Get(env, name)
  {
    limit := PerInputLimit(memory, config.numInputs, config.numOutputs);
    PluginsFit(e, lines, config, memory);
    hide PerInputLimit, Counted, Get, SetAll;
    forall name
      ensures Get(Updated(w, memory, config, env), name)
           == if name in config.memBufLimitNames && name != "" then w.megabytes(limit) else Get(env, name)
    {
      SetAllGet(env, config.memBufLimitNames, w.megabytes(limit), name);
    }
  }

  /** Everything after the memory was read. */
  ghost predicate Succeeds(w: World, rank: Rank, memory: string)
    requires Acyclic(w.files, w.resolve, rank, w.configFile)
  {
    w.atoi(memory).Some? && Expand(w.files, w.resolve, rank, w.configFile).Some?
  }

  class Process {
    var env: map<string, string>

    method SetMemoryBufLimitDefaults()
      modifies this
      ensures env == old(env) + DEFAULTS
      ensures forall name ::
                Get(env, name) == if name in {"MBL_AUDIT", "MBL_ERLANG", "MBL_EVENTING", "MBL_HTTP", "MBL_INDEX",
                                              "MBL_PROJECTOR", "MBL_JAVA", "MBL_MEMCACHED", "MBL_PROMETHEUS",
                                              "MBL_REBALANCE", "MBL_XDCR", "MBL_QUERY", "MBL_FTS"}
                                  then "false" else Get(old(env), name)
    {
      DefaultsOff();
      hide DEFAULTS;
      env := env + DEFAULTS;
    }

    method SetLimits(names: seq<string>, value: string)
      modifies this
      ensures env == SetAll(old(env), names, value)
    {
      for i := 0 to |names|
        invariant env == SetAll(old(env), names[..i], value)
      {
        env := Set(env, names[i], value);
        assert names[..i + 1][..i] == names[..i];
      }
      assert names[..|names|] == names;
    }

    method UpdateMemoryBufLimits(w: World, ghost rank: Rank)
      returns (ending: Ending, ghost config: MembufLimitConfig)
      requires Acyclic(w.files, w.resolve, rank, w.configFile)
      modifies this
      ensures MEMORY == "CONTAINER_LIMITS_MEMORY_MEGABYTES"
      ensures ending == Fatal
         <==> Get(old(env), MEMORY) != ""
              && (w.atoi(Get(old(env), MEMORY)).None? || Expand(w.files, w.resolve, rank, w.configFile).None?)
      ensures Get(old(env), MEMORY) != "" && config.numInputs == 0 && config.numOutputs == 0 ==> env == old(env)
      ensures var memory := Get(old(env), MEMORY);
              if memory == "" then
                ending == Returned && env == old(env) + DEFAULTS
              else if !Succeeds(w, rank, memory) then
                ending == Fatal && env == old(env)
              else
                && ending == Returned && env == Updated(w, w.atoi(memory).value, config, old(env))
                && Counted(EnvironmentOf(w, old(env)), Expand(w.files, w.resolve, rank, w.configFile).value, config)
    {
      hide Get, EnvironmentOf, Expand, SetAll, DEFAULTS, PerInputLimit, Sections, Named, NumInputs, AllLimitNames;
      hide EnabledInputs, ActiveOutputs, Acyclic;
      var memoryLimit := Get(env, MEMORY);
      config := MembufLimitConfig(0, 0, []);
      if memoryLimit == "" {
        SetMemoryBufLimitDefaults();
        return Returned, config;
      }
      var memoryMB := w.atoi(memoryLimit);
      if memoryMB.None? {
        return Fatal, config;
      }
      var fbConfig := BuildConfigFile(w.files, w.resolve, w.configFile, rank);
      if fbConfig.None? {
        return Fatal, config;
      }
      var memBufConfig := CreateMemBufLimitConfig(fbConfig.value, EnvironmentOf(w, env));
      config := memBufConfig;
      assert Counted(EnvironmentOf(w, old(env)), fbConfig.value, config);
      hide Counted;
      if memBufConfig.numInputs == 0 && memBufConfig.numOutputs == 0 {
        return Returned, config;
      }
      if |memBufConfig.memBufLimitNames| == 0 {
        return Returned, config;
      }
      var perInputMemLimit := PerInputLimit(memoryMB.value, memBufConfig.numInputs, memBufConfig.numOutputs);
      var megabyteString := w.megabytes(perInputMemLimit);
      SetLimits(memBufConfig.memBufLimitNames, megabyteString);
      return Returned, config;
    }
  }
}
