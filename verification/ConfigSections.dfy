/**
 * The sections of a configuration file (pkg/common/parser.go, extractSection and BuildSections). Lines are
 * ASCII.
 */
module ConfigSections {
  import opened Wrappers

  type Line = string
  type Section = seq<Line>

  // ---- strings.ToUpper(strings.TrimSpace(line)) ----

  predicate IsSpace(c: char)
  {
    c == ' ' || c == '\t' || c == '\n' || c == '\r' || c as int == 11 || c as int == 12
  }

  function TrimLeft(s: string): string
  {
    if s != "" && IsSpace(s[0]) then TrimLeft(s[1..]) else s
  }

  function TrimRight(s: string): string
  {
    if s != "" && IsSpace(s[|s| - 1]) then TrimRight(s[..|s| - 1]) else s
  }

  function UpperChar(c: char): char
  {
    if 'a' <= c <= 'z' then c - 'a' + 'A' else c
  }

  function Upper(s: string): (r: string)
    ensures |r| == |s| && forall i :: 0 <= i < |s| ==> r[i] == UpperChar(s[i])
  {
    seq(|s|, i requires 0 <= i < |s| => UpperChar(s[i]))
  }

  function Norm(line: string): string { Upper(TrimRight(TrimLeft(line))) }

  predicate Trimmed(s: string)
  {
    s == "" || (!IsSpace(s[0]) && !IsSpace(s[|s| - 1]))
  }

  lemma {:induction false} TrimLeftTrims(s: string)
    ensures TrimLeft(s) == "" || !IsSpace(TrimLeft(s)[0])
  {
    if s != "" && IsSpace(s[0]) {
      TrimLeftTrims(s[1..]);
    }
  }

  lemma {:induction false} TrimRightTrims(s: string)
    ensures TrimRight(s) <= s && (TrimRight(s) == "" || !IsSpace(TrimRight(s)[|TrimRight(s)| - 1]))
  {
    if s != "" && IsSpace(s[|s| - 1]) {
      TrimRightTrims(s[..|s| - 1]);
    }
  }

  /** Normalising a normalised line changes nothing. */
  lemma NormIdempotent(line: string)
    ensures Norm(Norm(line)) == Norm(line)
  {
    TrimLeftTrims(line);
    TrimRightTrims(TrimLeft(line));
    assert Trimmed(Norm(line));
    assert Norm(Norm(line)) == Upper(Norm(line));
  }

  predicate IsHead(line: string) { "[" <= Norm(line) }

  lemma {:induction false} TrimLeftParts(s: string) returns (pre: string)
    ensures s == pre + TrimLeft(s) && forall i :: 0 <= i < |pre| ==> IsSpace(pre[i])
  {
    if s != "" && IsSpace(s[0]) {
      pre := TrimLeftParts(s[1..]);
      pre := [s[0]] + pre;
    } else {
      pre := "";
    }
  }

  lemma {:induction false} TrimRightParts(s: string) returns (post: string)
    ensures s == TrimRight(s) + post && forall i :: 0 <= i < |post| ==> IsSpace(post[i])
  {
    if s != "" && IsSpace(s[|s| - 1]) {
      post := TrimRightParts(s[..|s| - 1]);
      post := post + [s[|s| - 1]];
    } else {
      post := "";
    }
  }

  /**
   * What normalising does to a line: it drops the spaces at both ends, which are the six of ASCII with the
   * codes 9 to 13 and 32, and replaces small letters by capitals. A head line starts with a bracket.
   */
  lemma NormMeaning(line: Line) returns (pre: string, mid: string, post: string)
    ensures line == pre + (mid + post)
    ensures forall i :: 0 <= i < |pre| ==> pre[i] == ' ' || 9 <= pre[i] as int <= 13
    ensures forall i :: 0 <= i < |post| ==> post[i] == ' ' || 9 <= post[i] as int <= 13
    ensures mid != "" ==> mid[0] != ' ' && !(9 <= mid[0] as int <= 13)
    ensures mid != "" ==> mid[|mid| - 1] != ' ' && !(9 <= mid[|mid| - 1] as int <= 13)
    ensures |Norm(line)| == |mid|
    ensures forall i :: 0 <= i < |mid| ==>
              Norm(line)[i] == if 'a' <= mid[i] <= 'z' then (mid[i] as int - 32) as char else mid[i]
    ensures forall i :: 0 <= i < |Norm(line)| ==> !('a' <= Norm(line)[i] <= 'z')
    ensures IsHead(line) <==> mid != "" && mid[0] == '['
  {
    pre := TrimLeftParts(line);
    post := TrimRightParts(TrimLeft(line));
    mid := TrimRight(TrimLeft(line));
    TrimLeftTrims(line);
    TrimRightTrims(TrimLeft(line));
    hide TrimLeft, TrimRight;
  }

  // ---- The sections of a file in one pass ----

  /** A section is a head line as it stands and the normalised lines after it, up to the next head line. */
  function Sections(file: seq<Line>): seq<Section>
  {
    if file == [] then []
    else Appended(Sections(file[..|file| - 1]), file[|file| - 1])
  }

  /** A head line opens a section, any other line goes to the open section, if there is one. */
  function Appended(sections: seq<Section>, line: Line): (r: seq<Section>)
    ensures IsHead(line) || sections != [] ==> r != []
  {
    if IsHead(line) then sections + [[line]]
    else if sections == [] then []
    else sections[..|sections| - 1] + [sections[|sections| - 1] + [Norm(line)]]
  }

  predicate WellFormed(section: Section)
  {
    section != [] && IsHead(section[0])
    && forall k :: 1 <= k < |section| ==> !IsHead(section[k]) && Norm(section[k]) == section[k]
  }

  lemma {:induction false} SectionsWellFormed(file: seq<Line>)
    ensures forall i :: 0 <= i < |Sections(file)| ==> WellFormed(Sections(file)[i])
  {
    if file != [] {
      SectionsWellFormed(file[..|file| - 1]);
      NormIdempotent(file[|file| - 1]);
    }
  }

  lemma SectionsStep(file: seq<Line>, line: Line)
    ensures Sections(file + [line]) == Appended(Sections(file), line)
  {
    assert (file + [line])[..|file|] == file;
  }

  lemma LastLine(a: seq<Line>, b: seq<Line>)
    requires b != []
    ensures b == b[..|b| - 1] + [b[|b| - 1]] && a + b == (a + b[..|b| - 1]) + [b[|b| - 1]]
  {
  }

  /** The sections of two files one after the other, the second starting with a head line. */
  lemma {:induction false} SectionsConcat(a: seq<Line>, b: seq<Line>)
    requires b != [] ==> IsHead(b[0])
    ensures Sections(a + b) == Sections(a) + Sections(b)
    ensures b != [] ==> Sections(b) != []
    decreases |b|
  {
    if b == [] {
      assert a + b == a;
    } else {
      hide Sections, Appended, IsHead;
      var before, line := b[..|b| - 1], b[|b| - 1];
      LastLine(a, b);
      SectionsConcat(a, before);
      SectionsStep(a + before, line);
      SectionsStep(before, line);
      AppendedConcat(Sections(a), Sections(before), line);
    }
  }

  lemma AppendedConcat(a: seq<Section>, b: seq<Section>, line: Line)
    requires IsHead(line) || b != []
    ensures Appended(a + b, line) == a + Appended(b, line)
  {
  }

  // ---- extractSection and BuildSections ----

  /** The index of the next head line, or the end of the file. */
  function NextHead(file: seq<Line>, i: nat): (r: nat)
    requires i <= |file|
    ensures i <= r <= |file|
    ensures forall j :: i <= j < r ==> !IsHead(file[j])
    ensures r < |file| ==> IsHead(file[r])
    decreases |file| - i
  {
    if i == |file| || IsHead(file[i]) then i else NextHead(file, i + 1)
  }

  function Body(lines: seq<Line>): (r: seq<Line>)
    ensures |r| == |lines| && forall k :: 0 <= k < |lines| ==> r[k] == Norm(lines[k])
  {
    seq(|lines|, k requires 0 <= k < |lines| => Norm(lines[k]))
  }

  /** The section that starts at line i, found by reading on from there. */
  function SectionAt(file: seq<Line>, i: nat): Section
    requires i < |file|
  {
    [file[i]] + Body(file[i + 1..NextHead(file, i + 1)])
  }

  function SectionsFrom(file: seq<Line>, i: nat): seq<Section>
    requires i <= |file|
    decreases |file| - i
  {
    if i == |file| then []
    else if IsHead(file[i]) then [SectionAt(file, i)] + SectionsFrom(file, i + 1)
    else SectionsFrom(file, i + 1)
  }

  // ---- Reading on from each head line gives the sections of the one pass ----

  lemma {:induction false} NoHeads(file: seq<Line>, i: nat, j: nat)
    requires i <= j <= |file| && forall k :: i <= k < j ==> !IsHead(file[k])
    ensures SectionsFrom(file, i) == SectionsFrom(file, j)
    decreases j - i
  {
    if i < j {
      NoHeads(file, i + 1, j);
    }
  }

  lemma {:induction false} OneSection(head: Line, lines: seq<Line>)
    requires IsHead(head) && forall k :: 0 <= k < |lines| ==> !IsHead(lines[k])
    ensures Sections([head] + lines) == [[head] + Body(lines)]
    decreases |lines|
  {
    if lines == [] {
      SectionsStep([], head);
      assert [head] + lines == [] + [head];
      assert [head] + Body(lines) == [head];
    } else {
      hide Sections, Body, Norm, IsHead, Appended;
      var before, line := lines[..|lines| - 1], lines[|lines| - 1];
      OneSection(head, before);
      LastLine([head], lines);
      SectionsStep([head] + before, line);
      BodyAppended(before, line);
      AppendedToOne([head] + Body(before), line);
      Associative([head], Body(before), [Norm(line)]);
    }
  }

  lemma AppendedToOne(section: Section, line: Line)
    requires !IsHead(line)
    ensures Appended([section], line) == [section + [Norm(line)]]
  {
  }

  lemma BodyAppended(lines: seq<Line>, line: Line)
    ensures Body(lines + [line]) == Body(lines) + [Norm(line)]
  {
  }

  /** Lines before the first head line belong to no section. */
  lemma {:induction false} LeadingLine(line: Line, rest: seq<Line>)
    requires !IsHead(line)
    ensures Sections([line] + rest) == Sections(rest)
    decreases |rest|
  {
    var n := |rest| - 1;
    if rest == [] {
      assert [line] + rest == [line];
      assert Sections([line][..0]) == [];
    } else {
      LeadingLine(line, rest[..n]);
      assert ([line] + rest)[..|rest|] == [line] + rest[..n];
    }
  }

  lemma CutAtHead(file: seq<Line>, i: nat, j: nat)
    requires i < j <= |file|
    ensures file[i..] == ([file[i]] + file[i + 1..j]) + file[j..]
  {
  }

  /** Reading on from a head line up to the next one, and then going on there. */
  lemma SectionThenRest(file: seq<Line>, i: nat, j: nat)
    requires i < |file| && IsHead(file[i]) && j == NextHead(file, i + 1)
    ensures SectionsFrom(file, i) == [SectionAt(file, i)] + SectionsFrom(file, j)
  {
    NoHeads(file, i + 1, j);
  }

  lemma {:induction false} RescanIsOnePass(file: seq<Line>, i: nat)
    requires i <= |file|
    ensures SectionsFrom(file, i) == Sections(file[i..])
    decreases |file| - i
  {
    if i < |file| {
      if IsHead(file[i]) {
        var j := NextHead(file, i + 1);
        RescanIsOnePass(file, j);
        SectionThenRest(file, i, j);
        OneSection(file[i], file[i + 1..j]);
        SectionsConcat([file[i]] + file[i + 1..j], file[j..]);
        CutAtHead(file, i, j);
        hide Sections, SectionsFrom, Body, IsHead, NextHead;
      } else {
        RescanIsOnePass(file, i + 1);
        LeadingLine(file[i], file[i + 1..]);
        assert file[i..] == [file[i]] + file[i + 1..];
      }
    }
  }

  /** The sections whose head line reads as the name. */
  function Named(sections: seq<Section>, name: string): seq<Section>
  {
    if sections == [] then []
    else (if sections[0] != [] && Norm(sections[0][0]) == name then [sections[0]] else []) + Named(sections[1..], name)
  }

  lemma {:induction false} NamedConcat(a: seq<Section>, b: seq<Section>, name: string)
    ensures Named(a + b, name) == Named(a, name) + Named(b, name)
  {
    if a == [] {
      assert a + b == b;
    } else {
      assert (a + b)[1..] == a[1..] + b;
      NamedConcat(a[1..], b, name);
    }
  }

  /** The plugins of two files one after the other, the second starting with a head line. */
  lemma NamedOfJoined(a: seq<Line>, b: seq<Line>, name: string)
    requires b != [] ==> IsHead(b[0])
    ensures Named(Sections(a + b), name) == Named(Sections(a), name) + Named(Sections(b), name)
  {
    SectionsConcat(a, b);
    NamedConcat(Sections(a), Sections(b), name);
  }

  /**
   * A head line and the lines up to the next one are a plugin of that name exactly if the head line,
   * normalised, is the name; what comes before and after does not matter.
   */
  lemma PluginFound(before: seq<Line>, head: Line, lines: seq<Line>, after: seq<Line>, name: string)
    requires IsHead(head) && (forall k :: 0 <= k < |lines| ==> !IsHead(lines[k])) && (after != [] ==> IsHead(after[0]))
    ensures Named(Sections(before + (([head] + lines) + after)), name)
         == Named(Sections(before), name)
            + ((if Norm(head) == name then [[head] + Body(lines)] else []) + Named(Sections(after), name))
  {
    hide Norm, Body, IsHead, Sections;
    OneSection(head, lines);
    NamedOfJoined([head] + lines, after, name);
    NamedOfJoined(before, ([head] + lines) + after, name);
    NamedOne([head] + Body(lines), name);
  }

  lemma NamedOne(section: Section, name: string)
    requires section != []
    ensures Named([section], name) == if Norm(section[0]) == name then [section] else []
  {
    assert [section][1..] == [];
  }

  /** The sections of that name from line i on. */
  function NamedRest(file: seq<Line>, i: nat, name: string): seq<Section>
    requires i <= |file|
  {
    Named(SectionsFrom(file, i), name)
  }

  lemma NamedFrom(file: seq<Line>, i: nat, name: string)
    requires i < |file| && "[" <= name
    ensures Norm(file[i]) == name ==> NamedRest(file, i, name) == [SectionAt(file, i)] + NamedRest(file, i + 1, name)
    ensures Norm(file[i]) != name ==> NamedRest(file, i, name) == NamedRest(file, i + 1, name)
  {
    if IsHead(file[i]) {
      assert SectionsFrom(file, i)[1..] == SectionsFrom(file, i + 1);
    }
  }

  lemma AllNamed(file: seq<Line>, name: string)
    ensures NamedRest(file, 0, name) == Named(Sections(file), name) && NamedRest(file, |file|, name) == []
  {
    RescanIsOnePass(file, 0);
    assert file[0..] == file;
  }

  lemma Regroup(a: seq<Section>, section: Section, b: seq<Section>)
    ensures a + ([section] + b) == (a + [section]) + b
  {
  }

  class ConfigFileParser {
    const configFile: seq<Line>
    var inputs: seq<Section>
    var outputs: seq<Section>

    constructor (configFile: seq<Line>)
      ensures this.configFile == configFile && inputs == [] && outputs == []
    {
      this.configFile := configFile;
      inputs, outputs := [], [];
    }

    method ExtractSection(sectionStart: nat) returns (section: Section)
      requires sectionStart < |configFile|
      ensures section == SectionAt(configFile, sectionStart)
    {
      hide Norm, Body, Upper;
      var start := sectionStart + 1;
      section := [configFile[sectionStart]];
      var i := start;
      while i < |configFile|
        invariant start <= i <= NextHead(configFile, start)
        invariant section == [configFile[sectionStart]] + Body(configFile[start..i])
      {
        var nextLine := Norm(configFile[i]);
        if "[" <= nextLine {
          break;
        }
        BodyAppended(configFile[start..i], configFile[i]);
        assert configFile[start..i] + [configFile[i]] == configFile[start..i + 1];
        section := section + [nextLine];
        i := i + 1;
      }
      assert i == NextHead(configFile, start);
    }

    /** The input and output sections of the file are added to those already there. */
    method BuildSections()
      modifies this
      ensures inputs == old(inputs) + Named(Sections(configFile), "[INPUT]")
      ensures outputs == old(outputs) + Named(Sections(configFile), "[OUTPUT]")
    {
      hide *;
      for i := 0 to |configFile|
        invariant inputs + NamedRest(configFile, i, "[INPUT]") == old(inputs) + NamedRest(configFile, 0, "[INPUT]")
        invariant outputs + NamedRest(configFile, i, "[OUTPUT]") == old(outputs) + NamedRest(configFile, 0, "[OUTPUT]")
      {
        NamedFrom(configFile, i, "[INPUT]");
        NamedFrom(configFile, i, "[OUTPUT]");
        var line := Norm(configFile[i]);
        if line == "[INPUT]" {
          var section := ExtractSection(i);
          Regroup(inputs, section, NamedRest(configFile, i + 1, "[INPUT]"));
          inputs := inputs + [section];
        } else if line == "[OUTPUT]" {
          var section := ExtractSection(i);
          Regroup(outputs, section, NamedRest(configFile, i + 1, "[OUTPUT]"));
          outputs := outputs + [section];
        }
      }
      AllNamed(configFile, "[INPUT]");
      AllNamed(configFile, "[OUTPUT]");
    }
  }

  function Flat(sections: seq<Section>): seq<Line>
  {
    if sections == [] then [] else Flat(sections[..|sections| - 1]) + sections[|sections| - 1]
  }

  lemma {:induction false} HeadedKeepLines(file: seq<Line>)
    requires file != [] ==> IsHead(file[0])
    ensures Body(Flat(Sections(file))) == Body(file)
    ensures file != [] ==> Sections(file) != []
  {
    if file != [] {
      hide Sections, Norm, Body, Flat, IsHead, Appended;
      var before, line := file[..|file| - 1], file[|file| - 1];
      LastLine([], file);
      HeadedKeepLines(before);
      SectionsStep(before, line);
      FlatAppended(Sections(before), line);
      NormIdempotent(line);
      BodyAppended(before, line);
      BodyAppended(Flat(Sections(before)), if IsHead(line) then line else Norm(line));
    }
  }

  /** Lines before the first head line are in no section. */
  lemma {:induction false} LeadingLines(file: seq<Line>, i: nat)
    requires i <= |file| && forall k :: 0 <= k < i ==> !IsHead(file[k])
    ensures Sections(file) == Sections(file[i..])
    decreases i
  {
    if i == 0 {
      assert file[0..] == file;
    } else {
      assert file == [file[0]] + file[1..] && file[1..][i - 1..] == file[i..];
      LeadingLine(file[0], file[1..]);
      LeadingLines(file[1..], i - 1);
    }
  }

  /** No line from the first head line on is lost, and none is moved. */
  lemma SectionsKeepLines(file: seq<Line>)
    ensures Body(Flat(Sections(file))) == Body(file[NextHead(file, 0)..])
  {
    var i := NextHead(file, 0);
    LeadingLines(file, i);
    HeadedKeepLines(file[i..]);
  }

  lemma FlatAppended(sections: seq<Section>, line: Line)
    requires IsHead(line) || sections != []
    ensures var added := if IsHead(line) then line else Norm(line);
            Flat(Appended(sections, line)) == Flat(sections) + [added]
  {
    var r := Appended(sections, line);
    var n := |r| - 1;
    if IsHead(line) {
      assert r[..n] == sections && r[n] == [line];
    } else {
      assert r[..n] == sections[..n] && r[n] == sections[n] + [Norm(line)];
    }
  }
}
