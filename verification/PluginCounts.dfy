/**
 * Counting the plugins of a configuration (pkg/common/parser.go, findNextPrefix, handleAuditInputs and
 * CreateMemBufLimitConfig).
 */
module PluginCounts {
  import opened ConfigSections

  /**
   * auditEnabled is GetAuditEnabled, value is os.Getenv, and variable is extractEnvVar: the name of the
   * first variable in a line, or the empty string.
   */
  datatype Environment = Environment(auditEnabled: bool, variable: string -> string, value: string -> string)

  datatype MembufLimitConfig = MembufLimitConfig(numInputs: nat, numOutputs: nat, memBufLimitNames: seq<string>)

  predicate Has(section: Section, j: nat, prefix: string)
    requires j < |section|
  {
    prefix <= Norm(section[j])
  }

  // ---- findNextPrefix ----

  /** The first line with the prefix from the given one on, unless there is a head line before it. */
  ghost predicate IsNext(file: seq<Line>, prefix: string, from: nat, r: int)
  {
    if r == -1 then
      forall j: nat :: from <= j < |file| && Has(file, j, prefix) ==> exists k :: from <= k < j && IsHead(file[k])
    else
      && from <= r < |file| && Has(file, r, prefix)
      && forall j: nat :: from <= j < r ==> !Has(file, j, prefix) && !IsHead(file[j])
  }

  function NextPrefix(file: seq<Line>, prefix: string, from: nat): (r: int)
    ensures IsNext(file, prefix, from, r)
    decreases |file| - from
  {
    if from >= |file| then -1
    else if Has(file, from, prefix) then from
    else if IsHead(file[from]) then -1
    else NextPrefix(file, prefix, from + 1)
  }

  method FindNextPrefix(file: seq<Line>, prefix: string, searchFrom: nat) returns (r: int)
    ensures r == NextPrefix(file, prefix, searchFrom)
    ensures IsNext(file, prefix, searchFrom, r)
  {
    var j := searchFrom;
    while j < |file|
      invariant j >= searchFrom && NextPrefix(file, prefix, j) == NextPrefix(file, prefix, searchFrom)
    {
      var nextLine := Norm(file[j]);
      if prefix <= nextLine {
        return j;
      } else if "[" <= nextLine {
        return -1;
      }
      j := j + 1;
    }
    return -1;
  }

  // ---- Inputs ----

  predicate EndsWith(s: string, suffix: string)
  {
    |suffix| <= |s| && s[|s| - |suffix|..] == suffix
  }

  function AuditCount(env: Environment, section: Section, i: nat): nat
  {
    var j := NextPrefix(section, "PATH", i + 1);
    if j != -1 && EndsWith(section[j], "AUDIT.LOG") && !env.auditEnabled then 0 else 1
  }

  /** The next path from the line after i on is that of the audit log. */
  ghost predicate AuditPathNext(section: Section, i: nat)
  {
    var next := i + 1;
    exists j: int :: j != -1 && IsNext(section, "PATH", next, j) && EndsWith(section[j], "AUDIT.LOG")
  }

  lemma NextUnique(file: seq<Line>, prefix: string, from: nat, r: int, r': int)
    requires IsNext(file, prefix, from, r) && IsNext(file, prefix, from, r')
    ensures r == r'
  {
  }

  /** 0 exactly for the audit log when audit is off, and else 1. */
  method HandleAuditInputs(env: Environment, startingIndex: nat, section: Section) returns (r: nat)
    ensures r == AuditCount(env, section, startingIndex)
    ensures r == 0 <==> !env.auditEnabled && AuditPathNext(section, startingIndex)
    ensures r == 0
       <==> !env.auditEnabled
            && exists j ::
                 startingIndex < j < |section| && "PATH" <= Norm(section[j])
                 && |section[j]| >= 9 && section[j][|section[j]| - 9..] == "AUDIT.LOG"
                 && forall k ::
                      startingIndex < k < j ==> !("PATH" <= Norm(section[k])) && !("[" <= Norm(section[k]))
    ensures r <= 1
  {
    var foundIndex := FindNextPrefix(section, "PATH", startingIndex + 1);
    var next := startingIndex + 1;
    forall j: int | IsNext(section, "PATH", next, j)
      ensures j == foundIndex
    {
      NextUnique(section, "PATH", next, j, foundIndex);
    }
    if foundIndex != -1 {
      if EndsWith(section[foundIndex], "AUDIT.LOG") {
        if env.auditEnabled {
          return 1;
        }
        return 0;
      }
    }
    return 1;
  }

  const LIMIT := "MEM_BUF_LIMIT"

  /** What the loop over the lines of a section adds from line i on. */
  function InputCount(env: Environment, section: Section, i: nat): nat
    decreases |section| - i
  {
    if i >= |section| then 0
    else AuditCount(env, section, i)
         + if NextPrefix(section, LIMIT, i + 1) != -1 then 0 else InputCount(env, section, i + 1)
  }

  /** The variables it adds. */
  function LimitNames(env: Environment, section: Section, i: nat): seq<string>
    decreases |section| - i
  {
    if i >= |section| then []
    else
      var j := NextPrefix(section, LIMIT, i + 1);
      if j != -1 then [env.variable(section[j])] else LimitNames(env, section, i + 1)
  }

  predicate HasLimit(section: Section)
  {
    exists j :: 1 <= j < |section| && Has(section, j, LIMIT)
  }

  /** The first path of the input is the audit log, and audit is off. */
  predicate DisabledAudit(env: Environment, section: Section)
  {
    !env.auditEnabled
    && exists j :: 1 <= j < |section| && Has(section, j, "PATH") && EndsWith(section[j], "AUDIT.LOG")
                && forall k :: 1 <= k < j ==> !Has(section, k, "PATH")
  }

  /** The search never leaves a section. */
  lemma NextInSection(section: Section, prefix: string, from: nat)
    requires WellFormed(section) && from >= 1
    ensures NextPrefix(section, prefix, from) == -1
       <==> forall j :: from <= j < |section| ==> !Has(section, j, prefix)
  {
    var r := NextPrefix(section, prefix, from);
    assert IsNext(section, prefix, from, r);
  }

  lemma AuditCountMeaning(env: Environment, section: Section)
    requires WellFormed(section)
    ensures AuditCount(env, section, 0) == if DisabledAudit(env, section) then 0 else 1
  {
    var j := NextPrefix(section, "PATH", 1);
    NextInSection(section, "PATH", 1);
    assert IsNext(section, "PATH", 1, j);
  }

  lemma NoLimitStep(env: Environment, section: Section, i: nat)
    requires WellFormed(section) && !HasLimit(section) && i < |section|
    ensures InputCount(env, section, i) == AuditCount(env, section, i) + InputCount(env, section, i + 1)
    ensures i + 1 == |section| ==> AuditCount(env, section, i) == 1
  {
    NextInSection(section, LIMIT, i + 1);
  }

  /** Without a limit line, every line counts again; the last one always counts. */
  lemma {:induction false} CountsAgain(env: Environment, section: Section, i: nat)
    requires WellFormed(section) && !HasLimit(section) && i < |section|
    ensures InputCount(env, section, i) >= 1
    ensures i + 1 < |section| ==> InputCount(env, section, i) >= AuditCount(env, section, i) + 1
    decreases |section| - i
  {
    NoLimitStep(env, section, i);
    hide WellFormed, HasLimit, InputCount, AuditCount;
    if i + 1 < |section| {
      CountsAgain(env, section, i + 1);
    }
  }

  /** An input is counted once, or not at all for disabled audit, exactly if it has a limit line or no lines. */
  lemma InputCountExact(env: Environment, section: Section)
    requires WellFormed(section)
    ensures var wanted := if DisabledAudit(env, section) then 0 else 1;
            && InputCount(env, section, 0) >= wanted
            && (InputCount(env, section, 0) == wanted <==> HasLimit(section) || |section| == 1)
  {
    AuditCountMeaning(env, section);
    NextInSection(section, LIMIT, 1);
    if !HasLimit(section) {
      CountsAgain(env, section, 0);
      assert |section| == 1 ==> InputCount(env, section, 1) == 0;
    }
  }

  /** The lines from i on that count. */
  function CountingLines(env: Environment, section: Section, i: nat): set<int>
  {
    set j | i <= j < |section| && AuditCount(env, section, j) == 1
  }

  lemma CountingStep(env: Environment, section: Section, i: nat)
    requires i < |section|
    ensures |CountingLines(env, section, i)| == |CountingLines(env, section, i + 1)| + AuditCount(env, section, i)
  {
    AuditCountIsBit(env, section, i);
    hide AuditCount;
    assert CountingLines(env, section, i)
        == CountingLines(env, section, i + 1) + if AuditCount(env, section, i) == 1 then {i as int} else {};
  }

  lemma NoneLeft(env: Environment, section: Section)
    ensures CountingLines(env, section, |section|) == {} && InputCount(env, section, |section|) == 0
  {
  }

  lemma {:induction false} WithoutLimitFrom(env: Environment, section: Section, i: nat)
    requires WellFormed(section) && !HasLimit(section) && i <= |section|
    ensures InputCount(env, section, i) == |CountingLines(env, section, i)|
    decreases |section| - i
  {
    hide *;
    if i == |section| {
      NoneLeft(env, section);
    } else {
      NoLimitStep(env, section, i);
      CountingStep(env, section, i);
      WithoutLimitFrom(env, section, i + 1);
    }
  }

  /** Without a limit line, each line counts from which the next path is not that of disabled audit. */
  lemma WithoutLimit(env: Environment, section: Section)
    requires WellFormed(section) && !HasLimit(section)
    ensures InputCount(env, section, 0) == |set j | 0 <= j < |section| && AuditCount(env, section, j) == 1|
  {
    WithoutLimitFrom(env, section, 0);
    hide AuditCount, InputCount;
  }

  lemma AuditCountIsBit(env: Environment, section: Section, i: nat)
    ensures AuditCount(env, section, i) <= 1
  {
  }

  predicate AllWellFormed(sections: seq<Section>)
  {
    forall i :: 0 <= i < |sections| ==> WellFormed(sections[i])
  }

  function NumInputs(env: Environment, inputs: seq<Section>): nat
  {
    if inputs == [] then 0
    else NumInputs(env, inputs[..|inputs| - 1]) + InputCount(env, inputs[|inputs| - 1], 0)
  }

  /** The inputs less the disabled audit ones. */
  function EnabledInputs(env: Environment, inputs: seq<Section>): nat
  {
    if inputs == [] then 0
    else EnabledInputs(env, inputs[..|inputs| - 1]) + if DisabledAudit(env, inputs[|inputs| - 1]) then 0 else 1
  }

  function AllLimitNames(env: Environment, inputs: seq<Section>): seq<string>
  {
    if inputs == [] then []
    else AllLimitNames(env, inputs[..|inputs| - 1]) + LimitNames(env, inputs[|inputs| - 1], 0)
  }

  predicate CountsOnce(section: Section)
  {
    HasLimit(section) || |section| == 1
  }

  predicate AllCountOnce(inputs: seq<Section>)
  {
    forall i :: 0 <= i < |inputs| ==> CountsOnce(inputs[i])
  }

  lemma AllCountOnceStep(inputs: seq<Section>)
    requires inputs != []
    ensures AllCountOnce(inputs) <==> AllCountOnce(inputs[..|inputs| - 1]) && CountsOnce(inputs[|inputs| - 1])
  {
  }

  /** The number is right exactly if every input has a limit line or is a head line only, and else too large. */
  lemma {:induction false} NumInputsExact(env: Environment, inputs: seq<Section>)
    requires AllWellFormed(inputs)
    ensures NumInputs(env, inputs) >= EnabledInputs(env, inputs)
    ensures NumInputs(env, inputs) == EnabledInputs(env, inputs) <==> AllCountOnce(inputs)
  {
    if inputs != [] {
      NumInputsExact(env, inputs[..|inputs| - 1]);
      InputCountExact(env, inputs[|inputs| - 1]);
      AllCountOnceStep(inputs);
      hide DisabledAudit, HasLimit, WellFormed, InputCount, AllCountOnce;
    }
  }

  /** The first limit line of a section. */
  predicate IsFirstLimit(section: Section, j: nat)
  {
    1 <= j < |section| && Has(section, j, LIMIT) && forall k :: 1 <= k < j ==> !Has(section, k, LIMIT)
  }

  /** One variable for a section with a limit line, that of the first one, and none for any other. */
  lemma {:induction false} LimitNamesMeaning(env: Environment, section: Section, i: nat)
    requires WellFormed(section)
    ensures !HasLimit(section) ==> LimitNames(env, section, i) == []
    ensures HasLimit(section) && i == 0
        ==> exists j: nat :: IsFirstLimit(section, j) && LimitNames(env, section, 0) == [env.variable(section[j])]
    decreases |section| - i
  {
    if i < |section| {
      var j := NextPrefix(section, LIMIT, i + 1);
      assert IsNext(section, LIMIT, i + 1, j);
      NextInSection(section, LIMIT, i + 1);
      if !HasLimit(section) {
        LimitNamesMeaning(env, section, i + 1);
      } else if i == 0 {
        assert IsFirstLimit(section, j);
      }
    }
  }

  /** A file that the count is wrong for: its one input, which is enabled, is counted twice. */
  lemma CountedTwice(env: Environment)
    ensures var file := ["[INPUT]", "TAG"];
            var inputs := Named(Sections(file), "[INPUT]");
            EnabledInputs(env, inputs) == 1 && NumInputs(env, inputs) == 2
  {
    var head, line := "[INPUT]", "TAG";
    var section := [head, line];
    assert Norm(head) == head && Norm(line) == line;
    SectionsStep([], head);
    SectionsStep([head], line);
    assert [] + [head] == [head] && [head] + [line] == section;
    assert Sections(section) == [section];
    assert Named([section], head) == [section];
    assert WellFormed(section) && !HasLimit(section) && !DisabledAudit(env, section);
    NoLimitStep(env, section, 0);
    NoLimitStep(env, section, 1);
    AuditCountMeaning(env, section);
    assert [section][..0] == [];
  }

  // ---- Outputs ----

  predicate Matches(env: Environment, line: Line)
  {
    var envValue := env.value(env.variable(line));
    envValue != "" && envValue != "no-match"
  }

  predicate IsActive(env: Environment, section: Section)
  {
    exists j :: 1 <= j < |section| && Has(section, j, "MATCH") && Matches(env, section[j])
  }

  function OutputCount(env: Environment, section: Section, i: nat): nat
    decreases |section| - i
  {
    if i >= |section| then 0
    else
      var j := NextPrefix(section, "MATCH", i + 1);
      if j != -1 && Matches(env, section[j]) then 1 else OutputCount(env, section, i + 1)
  }

  /** From line i on, an output is counted once if it has an active match line below, and else not. */
  lemma {:induction false} OutputCountFrom(env: Environment, section: Section, i: nat)
    requires WellFormed(section)
    ensures OutputCount(env, section, i) <= 1
    ensures OutputCount(env, section, i) == 1
       <==> exists j :: i + 1 <= j < |section| && Has(section, j, "MATCH") && Matches(env, section[j])
    decreases |section| - i
  {
    if i < |section| {
      var j := NextPrefix(section, "MATCH", i + 1);
      assert IsNext(section, "MATCH", i + 1, j);
      NextInSection(section, "MATCH", i + 1);
      OutputCountFrom(env, section, i + 1);
    }
  }

  function ActiveOutputs(env: Environment, outputs: seq<Section>): nat
  {
    if outputs == [] then 0
    else ActiveOutputs(env, outputs[..|outputs| - 1]) + if IsActive(env, outputs[|outputs| - 1]) then 1 else 0
  }

  /** What is looked for in the lines of a section, spelt out. */
  lemma PluginLines(env: Environment, section: Section)
    ensures HasLimit(section) <==> exists j :: 1 <= j < |section| && "MEM_BUF_LIMIT" <= Norm(section[j])
    ensures DisabledAudit(env, section)
       <==> !env.auditEnabled
            && exists j ::
                 1 <= j < |section| && "PATH" <= Norm(section[j])
                 && |section[j]| >= 9 && section[j][|section[j]| - 9..] == "AUDIT.LOG"
                 && forall k :: 1 <= k < j ==> !("PATH" <= Norm(section[k]))
    ensures IsActive(env, section)
       <==> exists j ::
              1 <= j < |section| && "MATCH" <= Norm(section[j])
              && env.value(env.variable(section[j])) != "" && env.value(env.variable(section[j])) != "no-match"
  {
    hide Norm;
    forall j | 0 <= j < |section|
      ensures Has(section, j, "MEM_BUF_LIMIT") <==> "MEM_BUF_LIMIT" <= Norm(section[j])
      ensures Has(section, j, "PATH") <==> "PATH" <= Norm(section[j])
      ensures Has(section, j, "MATCH") <==> "MATCH" <= Norm(section[j])
    {
    }
  }

  /** The numbers of the true entries. */
  function Indices(flags: seq<bool>): set<int> { set i | 0 <= i < |flags| && flags[i] }

  lemma OneMore(flags: seq<bool>, last: bool)
    ensures |Indices(flags + [last])| == |Indices(flags)| + if last then 1 else 0
  {
    assert Indices(flags + [last]) == Indices(flags) + if last then {|flags|} else {};
  }

  /** The sums count the input sections that are not disabled audit and the active output sections. */
  lemma PluginNumbers(env: Environment, sections: seq<Section>)
    ensures EnabledInputs(env, sections) == |set i | 0 <= i < |sections| && !DisabledAudit(env, sections[i])|
    ensures ActiveOutputs(env, sections) == |set i | 0 <= i < |sections| && IsActive(env, sections[i])|
  {
    hide DisabledAudit, IsActive, EnabledInputs, ActiveOutputs;
    var enabled := seq(|sections|, i requires 0 <= i < |sections| => !DisabledAudit(env, sections[i]));
    var active := seq(|sections|, i requires 0 <= i < |sections| => IsActive(env, sections[i]));
    EnabledNumber(env, sections, enabled);
    ActiveNumber(env, sections, active);
    assert Indices(enabled) == set i | 0 <= i < |sections| && !DisabledAudit(env, sections[i]);
    assert Indices(active) == set i | 0 <= i < |sections| && IsActive(env, sections[i]);
  }

  lemma {:induction false} EnabledNumber(env: Environment, inputs: seq<Section>, flags: seq<bool>)
    requires |flags| == |inputs| && forall i :: 0 <= i < |inputs| ==> flags[i] == !DisabledAudit(env, inputs[i])
    ensures EnabledInputs(env, inputs) == |Indices(flags)|
  {
    hide DisabledAudit;
    if inputs != [] {
      var n := |inputs| - 1;
      EnabledNumber(env, inputs[..n], flags[..n]);
      OneMore(flags[..n], flags[n]);
      assert flags[..n] + [flags[n]] == flags;
      hide Indices;
    }
  }

  lemma {:induction false} ActiveNumber(env: Environment, outputs: seq<Section>, flags: seq<bool>)
    requires |flags| == |outputs| && forall i :: 0 <= i < |outputs| ==> flags[i] == IsActive(env, outputs[i])
    ensures ActiveOutputs(env, outputs) == |Indices(flags)|
  {
    hide IsActive;
    if outputs != [] {
      var n := |outputs| - 1;
      ActiveNumber(env, outputs[..n], flags[..n]);
      OneMore(flags[..n], flags[n]);
      assert flags[..n] + [flags[n]] == flags;
      hide Indices;
    }
  }

  // ---- Files one after the other ----

  lemma LastSection(a: seq<Section>, b: seq<Section>)
    requires b != []
    ensures (a + b)[..|a + b| - 1] == a + b[..|b| - 1] && (a + b)[|a + b| - 1] == b[|b| - 1]
  {
  }

  lemma {:induction false} CountsOfConcat(env: Environment, a: seq<Section>, b: seq<Section>)
    ensures NumInputs(env, a + b) == NumInputs(env, a) + NumInputs(env, b)
    ensures EnabledInputs(env, a + b) == EnabledInputs(env, a) + EnabledInputs(env, b)
    ensures ActiveOutputs(env, a + b) == ActiveOutputs(env, a) + ActiveOutputs(env, b)
    decreases |b|
  {
    hide InputCount, DisabledAudit, IsActive;
    if b == [] {
      assert a + b == a;
    } else {
      LastSection(a, b);
      CountsOfConcat(env, a, b[..|b| - 1]);
    }
  }

  lemma {:induction false} NamesOfConcat(env: Environment, a: seq<Section>, b: seq<Section>)
    ensures AllLimitNames(env, a + b) == AllLimitNames(env, a) + AllLimitNames(env, b)
    decreases |b|
  {
    hide LimitNames;
    if b == [] {
      assert a + b == a;
    } else {
      LastSection(a, b);
      NamesOfConcat(env, a, b[..|b| - 1]);
      Grouped(AllLimitNames(env, a), AllLimitNames(env, b[..|b| - 1]), LimitNames(env, b[|b| - 1], 0));
    }
  }

  lemma Grouped(a: seq<string>, b: seq<string>, c: seq<string>)
    ensures (a + b) + c == a + (b + c)
  {
  }

  /** All counts of two files one after the other, the second starting with a head line, add up. */
  lemma CountsOfJoined(env: Environment, a: seq<Line>, b: seq<Line>)
    requires b != [] ==> IsHead(b[0])
    ensures var (i, i', o, o') := (Named(Sections(a), "[INPUT]"), Named(Sections(b), "[INPUT]"),
                                   Named(Sections(a), "[OUTPUT]"), Named(Sections(b), "[OUTPUT]"));
            && NumInputs(env, Named(Sections(a + b), "[INPUT]")) == NumInputs(env, i) + NumInputs(env, i')
            && EnabledInputs(env, Named(Sections(a + b), "[INPUT]")) == EnabledInputs(env, i) + EnabledInputs(env, i')
            && ActiveOutputs(env, Named(Sections(a + b), "[OUTPUT]")) == ActiveOutputs(env, o) + ActiveOutputs(env, o')
            && AllLimitNames(env, Named(Sections(a + b), "[INPUT]")) == AllLimitNames(env, i) + AllLimitNames(env, i')
  {
    hide *;
    NamedOfJoined(a, b, "[INPUT]");
    NamedOfJoined(a, b, "[OUTPUT]");
    CountsOfConcat(env, Named(Sections(a), "[INPUT]"), Named(Sections(b), "[INPUT]"));
    CountsOfConcat(env, Named(Sections(a), "[OUTPUT]"), Named(Sections(b), "[OUTPUT]"));
    NamesOfConcat(env, Named(Sections(a), "[INPUT]"), Named(Sections(b), "[INPUT]"));
  }

  // ---- CreateMemBufLimitConfig ----

  lemma {:induction false} NamedWellFormed(sections: seq<Section>, name: string)
    requires AllWellFormed(sections)
    ensures AllWellFormed(Named(sections, name))
  {
    if sections != [] {
      NamedWellFormed(sections[1..], name);
    }
  }

  lemma PluginsWellFormed(file: seq<Line>, name: string)
    ensures AllWellFormed(Named(Sections(file), name))
  {
    SectionsWellFormed(file);
    NamedWellFormed(Sections(file), name);
  }

  /** The loop over the lines of one input section. */
  method CountInput(env: Environment, section: Section) returns (count: nat, names: seq<string>)
    ensures count == InputCount(env, section, 0) && names == LimitNames(env, section, 0)
  {
    count, names := 0, [];
    for i := 0 to |section|
      invariant names == []
      invariant count + InputCount(env, section, i) == InputCount(env, section, 0)
      invariant LimitNames(env, section, i) == LimitNames(env, section, 0)
    {
      var enabled := HandleAuditInputs(env, i, section);
      count := count + enabled;
      var foundIndex := FindNextPrefix(section, LIMIT, i + 1);
      if foundIndex != -1 {
        names := names + [env.variable(section[foundIndex])];
        break;
      }
    }
  }

  /** The loop over the lines of one output section. */
  method CountOutput(env: Environment, section: Section) returns (count: nat)
    requires WellFormed(section)
    ensures count == if IsActive(env, section) then 1 else 0
  {
    count := 0;
    for i := 0 to |section|
      invariant count == 0 && OutputCount(env, section, i) == OutputCount(env, section, 0)
    {
      var foundIndex := FindNextPrefix(section, "MATCH", i + 1);
      if foundIndex != -1 {
        if Matches(env, section[foundIndex]) {
          count := 1;
          break;
        }
      }
    }
    OutputCountFrom(env, section, 0);
  }

  method CountInputs(env: Environment, inputs: seq<Section>) returns (inputCount: nat, names: seq<string>)
    ensures inputCount == NumInputs(env, inputs) && names == AllLimitNames(env, inputs)
  {
    hide LimitNames, InputCount;
    inputCount, names := 0, [];
    for j := 0 to |inputs|
      invariant inputCount == NumInputs(env, inputs[..j]) && names == AllLimitNames(env, inputs[..j])
    {
      var count, more := CountInput(env, inputs[j]);
      inputCount := inputCount + count;
      names := names + more;
      assert inputs[..j + 1][..j] == inputs[..j];
    }
    assert inputs[..|inputs|] == inputs;
  }

  method CountOutputs(env: Environment, outputs: seq<Section>) returns (outputCount: nat)
    requires AllWellFormed(outputs)
    ensures outputCount == ActiveOutputs(env, outputs)
  {
    hide IsActive, WellFormed;
    outputCount := 0;
    for j := 0 to |outputs|
      invariant outputCount == ActiveOutputs(env, outputs[..j])
    {
      var count := CountOutput(env, outputs[j]);
      outputCount := outputCount + count;
      assert outputs[..j + 1][..j] == outputs[..j];
    }
    assert outputs[..|outputs|] == outputs;
  }

  method CreateMemBufLimitConfig(file: seq<Line>, env: Environment) returns (config: MembufLimitConfig)
    ensures var inputs := Named(Sections(file), "[INPUT]");
            && config.numInputs == NumInputs(env, inputs) && config.memBufLimitNames == AllLimitNames(env, inputs)
            && config.numInputs >= EnabledInputs(env, inputs)
            && (config.numInputs == EnabledInputs(env, inputs) <==> AllCountOnce(inputs))
    ensures config.numOutputs == ActiveOutputs(env, Named(Sections(file), "[OUTPUT]"))
  {
    var parser := new ConfigFileParser(file);
    parser.BuildSections();
    var inputs, outputs := parser.inputs, parser.outputs;
    PluginsWellFormed(file, "[INPUT]");
    PluginsWellFormed(file, "[OUTPUT]");
    hide *;
    assert inputs == Named(Sections(file), "[INPUT]") && outputs == Named(Sections(file), "[OUTPUT]");
    NumInputsExact(env, inputs);
    var inputCount, names := CountInputs(env, inputs);
    var outputCount := CountOutputs(env, outputs);
    config := MembufLimitConfig(inputCount, outputCount, names);
  }
}
