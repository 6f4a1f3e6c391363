/**
 * The configuration flattener (pkg/common/parser.go, BuildConfigFile): a configuration file with the files
 * it includes put in place of the include lines, and without comments.
 */
module ConfigFlattener {
  import opened Wrappers

  const INCLUDE := "@include "

  /** The files that can be opened, each as its lines. */
  type Files = map<string, seq<string>>

  /** From the path of the including file and the text after the keyword to the path of the included one. */
  type Resolve = (string, string) -> string

  predicate IsInclude(line: string) { INCLUDE <= line }

  predicate IsComment(line: string) { "#" <= line }

  function Target(resolve: Resolve, path: string, line: string): string
    requires IsInclude(line)
  {
    resolve(path, line[|INCLUDE|..])
  }

  /** A rank for the files in the tree of includes; any other file may have none. */
  type Rank = string -> Option<nat>

  function Level(rank: Rank, path: string): nat
  {
    if rank(path).Some? then rank(path).value else 0
  }

  predicate RanksBelow(rank: Rank, target: string, path: string)
  {
    rank(target).Some? && rank(path).Some? && rank(target).value < rank(path).value
  }

  /** Every file that the lines include ranks below the given path. */
  ghost predicate Below(resolve: Resolve, rank: Rank, path: string, lines: seq<string>)
  {
    forall k :: 0 <= k < |lines| && IsInclude(lines[k]) ==> RanksBelow(rank, Target(resolve, path, lines[k]), path)
  }

  /** No file that includes lead to from the root includes itself, directly or through others. */
  ghost predicate Acyclic(files: Files, resolve: Resolve, rank: Rank, root: string)
  {
    && rank(root).Some?
    && forall path :: path in files && rank(path).Some? ==> Below(resolve, rank, path, files[path])
  }

  // ---- The expansion ----

  ghost function Expand(files: Files, resolve: Resolve, rank: Rank, path: string): Option<seq<string>>
    requires Acyclic(files, resolve, rank, path)
    decreases Level(rank, path), 1, 0
  {
    if path in files then ExpandLines(files, resolve, rank, path, files[path]) else None
  }

  /** What one line contributes. */
  ghost function ExpandLine(files: Files, resolve: Resolve, rank: Rank, path: string, line: string)
    : Option<seq<string>>
    requires Acyclic(files, resolve, rank, path) && Below(resolve, rank, path, [line])
    decreases Level(rank, path), 0, 0
  {
    if IsInclude(line) then
      assert RanksBelow(rank, Target(resolve, path, [line][0]), path);
      Expand(files, resolve, rank, Target(resolve, path, line))
    else if IsComment(line) then Some([])
    else Some([line])
  }

  ghost function ExpandLines(files: Files, resolve: Resolve, rank: Rank, path: string, lines: seq<string>)
    : Option<seq<string>>
    requires Acyclic(files, resolve, rank, path) && Below(resolve, rank, path, lines)
    decreases Level(rank, path), 0, 1 + |lines|
  {
    if lines == [] then Some([])
    else
      assert [lines[|lines| - 1]][0] == lines[|lines| - 1];
      Joined(ExpandLines(files, resolve, rank, path, lines[..|lines| - 1]),
             ExpandLine(files, resolve, rank, path, lines[|lines| - 1]))
  }

  function Joined(a: Option<seq<string>>, b: Option<seq<string>>): Option<seq<string>>
  {
    if a.Some? && b.Some? then Some(a.value + b.value) else None
  }

  /**
   * A line that starts with the keyword contributes the file which the text after its nine characters leads
   * to, a line that starts with '#' nothing, and any other line itself.
   */
  lemma LineMeaning(files: Files, resolve: Resolve, rank: Rank, path: string, line: string)
    requires Acyclic(files, resolve, rank, path) && Below(resolve, rank, path, [line])
    ensures |line| >= 9 && line[..9] == "@include "
        ==> Acyclic(files, resolve, rank, resolve(path, line[9..]))
            && ExpandLine(files, resolve, rank, path, line) == Expand(files, resolve, rank, resolve(path, line[9..]))
    ensures |line| >= 1 && line[0] == '#' ==> ExpandLine(files, resolve, rank, path, line) == Some([])
    ensures !(|line| >= 9 && line[..9] == "@include ") && !(|line| >= 1 && line[0] == '#')
        ==> ExpandLine(files, resolve, rank, path, line) == Some([line])
  {
    if IsInclude(line) {
      assert RanksBelow(rank, Target(resolve, path, [line][0]), path);
      assert line[..9] == "@include ";
    } else if |line| >= 9 {
      assert line[..9] != "@include ";
    }
  }

  /** BuildConfigFile. The rank only shows that the recursion ends. */
  method BuildConfigFile(files: Files, resolve: Resolve, path: string, ghost rank: Rank)
    returns (r: Option<seq<string>>)
    requires Acyclic(files, resolve, rank, path)
    ensures r == Expand(files, resolve, rank, path)
    decreases Level(rank, path)
  {
    if path !in files {
      return None;
    }
    var lines := files[path];
    var completeConfig := [];
    for i := 0 to |lines|
      invariant Below(resolve, rank, path, lines[..i])
      invariant ExpandLines(files, resolve, rank, path, lines[..i]) == Some(completeConfig)
    {
      var line := lines[i];
      assert Below(resolve, rank, path, lines);
      LinesPrefix(files, resolve, rank, path, lines, i);
      if IsInclude(line) {
        var newLines := BuildConfigFile(files, resolve, Target(resolve, path, line), rank);
        if newLines.None? {
          LinesFail(files, resolve, rank, path, lines, i + 1);
          return None;
        }
        completeConfig := completeConfig + newLines.value;
      } else if !IsComment(line) {
        completeConfig := completeConfig + [line];
      } else {
        assert completeConfig + [] == completeConfig;
      }
    }
    assert lines[..|lines|] == lines;
    return Some(completeConfig);
  }

  /** The expansion of one more line. */
  lemma LinesPrefix(files: Files, resolve: Resolve, rank: Rank, path: string, lines: seq<string>, i: nat)
    requires Acyclic(files, resolve, rank, path) && Below(resolve, rank, path, lines) && i < |lines|
    ensures Below(resolve, rank, path, lines[..i]) && Below(resolve, rank, path, lines[..i + 1])
    ensures Below(resolve, rank, path, [lines[i]])
    ensures ExpandLines(files, resolve, rank, path, lines[..i + 1])
         == Joined(ExpandLines(files, resolve, rank, path, lines[..i]),
                   ExpandLine(files, resolve, rank, path, lines[i]))
  {
    assert lines[..i + 1][..i] == lines[..i];
  }

  lemma {:induction false} LinesFail(files: Files, resolve: Resolve, rank: Rank, path: string,
                                     lines: seq<string>, i: nat)
    requires Acyclic(files, resolve, rank, path) && Below(resolve, rank, path, lines) && i <= |lines|
    ensures Below(resolve, rank, path, lines[..i])
    ensures ExpandLines(files, resolve, rank, path, lines[..i]) == None
        ==> ExpandLines(files, resolve, rank, path, lines) == None
    decreases |lines| - i
  {
    if i == |lines| {
      assert lines[..i] == lines;
    } else {
      LinesPrefix(files, resolve, rank, path, lines, i);
      LinesFail(files, resolve, rank, path, lines, i + 1);
    }
  }

  // ---- Lines one by one ----

  /** The expansion of the k-th line. */
  ghost function Piece(files: Files, resolve: Resolve, rank: Rank, path: string, lines: seq<string>, k: nat)
    : Option<seq<string>>
    requires Acyclic(files, resolve, rank, path) && Below(resolve, rank, path, lines) && k < |lines|
  {
    LinesPrefix(files, resolve, rank, path, lines, k);
    ExpandLine(files, resolve, rank, path, lines[k])
  }

  /** The lines expand exactly if every one does ... */
  lemma {:induction false} LinesExpand(files: Files, resolve: Resolve, rank: Rank, path: string,
                                       lines: seq<string>)
    requires Acyclic(files, resolve, rank, path) && Below(resolve, rank, path, lines)
    ensures ExpandLines(files, resolve, rank, path, lines).Some?
       <==> forall k :: 0 <= k < |lines| ==> Piece(files, resolve, rank, path, lines, k).Some?
  {
    if lines != [] {
      var n := |lines| - 1;
      var before := lines[..n];
      LinesPrefix(files, resolve, rank, path, lines, n);
      assert lines[..n + 1] == lines;
      LinesExpand(files, resolve, rank, path, before);
      forall k | 0 <= k < n
        ensures Piece(files, resolve, rank, path, lines, k) == Piece(files, resolve, rank, path, before, k)
      {
      }
      assert Piece(files, resolve, rank, path, lines, n) == ExpandLine(files, resolve, rank, path, lines[n]);
    }
  }

  /** ... and then to the lines their expansions consist of. */
  lemma {:induction false} LinesContain(files: Files, resolve: Resolve, rank: Rank, path: string,
                                        lines: seq<string>, x: string)
    requires Acyclic(files, resolve, rank, path) && Below(resolve, rank, path, lines)
    requires ExpandLines(files, resolve, rank, path, lines).Some?
    requires forall k :: 0 <= k < |lines| ==> Piece(files, resolve, rank, path, lines, k).Some?
    ensures x in ExpandLines(files, resolve, rank, path, lines).value
       <==> exists k :: 0 <= k < |lines| && x in Piece(files, resolve, rank, path, lines, k).value
  {
    if lines != [] {
      var n := |lines| - 1;
      var before := lines[..n];
      LinesPrefix(files, resolve, rank, path, lines, n);
      assert lines[..n + 1] == lines;
      forall k | 0 <= k < n
        ensures Piece(files, resolve, rank, path, lines, k) == Piece(files, resolve, rank, path, before, k)
      {
      }
      LinesContain(files, resolve, rank, path, before, x);
      var last := Piece(files, resolve, rank, path, lines, n);
      assert last == ExpandLine(files, resolve, rank, path, lines[n]);
      assert x in ExpandLines(files, resolve, rank, path, lines).value
        <==> x in ExpandLines(files, resolve, rank, path, before).value || x in last.value;
    }
  }

  // ---- When the expansion fails, and what it contains ----

  ghost predicate Includes(files: Files, resolve: Resolve, path: string, target: string)
  {
    path in files
    && exists k :: 0 <= k < |files[path]| && IsInclude(files[path][k])
                   && Target(resolve, path, files[path][k]) == target
  }

  /** Each path is that of a file with an include line for the next. */
  ghost predicate Chain(files: Files, resolve: Resolve, chain: seq<string>)
    decreases |chain|
  {
    |chain| > 0
    && (|chain| > 1 ==> Includes(files, resolve, chain[0], chain[1]) && Chain(files, resolve, chain[1..]))
  }

  /** An include line of a file ranks its target below the file. */
  lemma IncludedBelow(files: Files, resolve: Resolve, rank: Rank, path: string, k: nat)
    requires Acyclic(files, resolve, rank, path) && path in files && k < |files[path]| && IsInclude(files[path][k])
    ensures Below(resolve, rank, path, files[path])
    ensures RanksBelow(rank, Target(resolve, path, files[path][k]), path)
    ensures Piece(files, resolve, rank, path, files[path], k)
         == Expand(files, resolve, rank, Target(resolve, path, files[path][k]))
  {
    assert Below(resolve, rank, path, files[path]);
  }

  /** Chains of includes lead from the root to the path. */
  ghost predicate LeadsTo(files: Files, resolve: Resolve, root: string, path: string)
  {
    exists chain :: Chain(files, resolve, chain) && chain[0] == root && chain[|chain| - 1] == path
  }

  lemma {:induction false} ChainExtended(files: Files, resolve: Resolve, chain: seq<string>, target: string)
    requires Chain(files, resolve, chain) && Includes(files, resolve, chain[|chain| - 1], target)
    ensures Chain(files, resolve, chain + [target])
    decreases |chain|
  {
    if |chain| > 1 {
      ChainExtended(files, resolve, chain[1..], target);
      assert (chain + [target])[1..] == chain[1..] + [target];
    } else {
      assert (chain + [target])[1..] == [target];
    }
  }

  /** It is enough that the files which chains of includes lead to can be ranked. */
  lemma TreeRanked(files: Files, resolve: Resolve, height: string -> nat, root: string) returns (rank: Rank)
    requires forall path, target :: LeadsTo(files, resolve, root, path) && Includes(files, resolve, path, target)
                               ==> height(target) < height(path)
    ensures Acyclic(files, resolve, rank, root)
  {
    rank := path => if LeadsTo(files, resolve, root, path) then Some(height(path)) else None;
    assert LeadsTo(files, resolve, root, root) by {
      assert Chain(files, resolve, [root]);
    }
    forall path | path in files && rank(path).Some?
      ensures Below(resolve, rank, path, files[path])
    {
      forall k | 0 <= k < |files[path]| && IsInclude(files[path][k])
        ensures RanksBelow(rank, Target(resolve, path, files[path][k]), path)
      {
        var target := Target(resolve, path, files[path][k]);
        var chain :| Chain(files, resolve, chain) && chain[0] == root && chain[|chain| - 1] == path;
        assert Includes(files, resolve, path, target);
        ChainExtended(files, resolve, chain, target);
        assert (chain + [target])[0] == root;
      }
    }
  }

  /** A failed expansion leads along a chain of includes to a file that is missing. */
  lemma {:induction false} FailureHasChain(files: Files, resolve: Resolve, rank: Rank, path: string)
    returns (chain: seq<string>)
    requires Acyclic(files, resolve, rank, path) && Expand(files, resolve, rank, path) == None
    ensures Chain(files, resolve, chain) && chain[0] == path && chain[|chain| - 1] !in files
    decreases Level(rank, path)
  {
    chain := [path];
    if path in files {
      assert Below(resolve, rank, path, files[path]);
      LinesExpand(files, resolve, rank, path, files[path]);
      var k: nat :| k < |files[path]| && Piece(files, resolve, rank, path, files[path], k) == None;
      IncludedBelow(files, resolve, rank, path, k);
      var rest := FailureHasChain(files, resolve, rank, Target(resolve, path, files[path][k]));
      chain := chain + rest;
      assert chain[1..] == rest;
    }
  }

  lemma {:induction false} ChainFails(files: Files, resolve: Resolve, rank: Rank, chain: seq<string>)
    requires Chain(files, resolve, chain) && Acyclic(files, resolve, rank, chain[0]) && chain[|chain| - 1] !in files
    ensures Expand(files, resolve, rank, chain[0]) == None
    decreases |chain|
  {
    if |chain| > 1 {
      var path := chain[0];
      ChainFails(files, resolve, rank, chain[1..]);
      var k :| 0 <= k < |files[path]| && IsInclude(files[path][k]) && Target(resolve, path, files[path][k]) == chain[1];
      IncludedBelow(files, resolve, rank, path, k);
      LinesExpand(files, resolve, rank, path, files[path]);
    }
  }

  /** BuildConfigFile fails exactly if includes lead from the root file to one that is missing. */
  lemma FailsExactly(files: Files, resolve: Resolve, rank: Rank, path: string)
    requires Acyclic(files, resolve, rank, path)
    ensures Expand(files, resolve, rank, path) == None
       <==> exists chain :: Chain(files, resolve, chain) && chain[0] == path && chain[|chain| - 1] !in files
  {
    if Expand(files, resolve, rank, path) == None {
      var chain := FailureHasChain(files, resolve, rank, path);
    }
    if chain :| Chain(files, resolve, chain) && chain[0] == path && chain[|chain| - 1] !in files {
      ChainFails(files, resolve, rank, chain);
    }
  }

  predicate IsPlain(line: string) { !IsInclude(line) && !IsComment(line) }

  /** The file at the end of the chain has the line. */
  predicate Supplies(files: Files, chain: seq<string>, x: string)
  {
    |chain| > 0 && chain[|chain| - 1] in files && x in files[chain[|chain| - 1]]
  }

  lemma {:induction false} ContentHasChain(files: Files, resolve: Resolve, rank: Rank, path: string, x: string)
    returns (chain: seq<string>)
    requires Acyclic(files, resolve, rank, path)
    requires Expand(files, resolve, rank, path).Some? && x in Expand(files, resolve, rank, path).value
    ensures Chain(files, resolve, chain) && chain[0] == path && Supplies(files, chain, x) && IsPlain(x)
    decreases Level(rank, path)
  {
    var lines := files[path];
    assert Below(resolve, rank, path, lines);
    LinesExpand(files, resolve, rank, path, lines);
    LinesContain(files, resolve, rank, path, lines, x);
    var k: nat :| k < |lines| && x in Piece(files, resolve, rank, path, lines, k).value;
    chain := [path];
    if IsInclude(lines[k]) {
      IncludedBelow(files, resolve, rank, path, k);
      var rest := ContentHasChain(files, resolve, rank, Target(resolve, path, lines[k]), x);
      chain := chain + rest;
      assert chain[1..] == rest;
    }
  }

  lemma {:induction false} ChainIsContained(files: Files, resolve: Resolve, rank: Rank, chain: seq<string>,
                                            x: string)
    requires Chain(files, resolve, chain) && Acyclic(files, resolve, rank, chain[0])
    requires Expand(files, resolve, rank, chain[0]).Some? && Supplies(files, chain, x) && IsPlain(x)
    ensures x in Expand(files, resolve, rank, chain[0]).value
    decreases |chain|
  {
    var path := chain[0];
    var lines := files[path];
    assert Below(resolve, rank, path, lines);
    LinesExpand(files, resolve, rank, path, lines);
    LinesContain(files, resolve, rank, path, lines, x);
    if |chain| == 1 {
      var k :| 0 <= k < |lines| && lines[k] == x;
      assert x in Piece(files, resolve, rank, path, lines, k).value;
    } else {
      var k :| 0 <= k < |lines| && IsInclude(lines[k]) && Target(resolve, path, lines[k]) == chain[1];
      IncludedBelow(files, resolve, rank, path, k);
      ChainIsContained(files, resolve, rank, chain[1..], x);
    }
  }

  /**
   * The built configuration consists of exactly the lines of the files that includes lead to, less the
   * comments and the include lines.
   */
  lemma ContainsExactly(files: Files, resolve: Resolve, rank: Rank, path: string, x: string)
    requires Acyclic(files, resolve, rank, path) && Expand(files, resolve, rank, path).Some?
    ensures x in Expand(files, resolve, rank, path).value
       <==> IsPlain(x) && exists chain :: Chain(files, resolve, chain) && chain[0] == path && Supplies(files, chain, x)
  {
    if x in Expand(files, resolve, rank, path).value {
      var chain := ContentHasChain(files, resolve, rank, path, x);
    }
    if IsPlain(x) {
      if chain :| Chain(files, resolve, chain) && chain[0] == path && Supplies(files, chain, x) {
        ChainIsContained(files, resolve, rank, chain, x);
      }
    }
  }

  // ---- Order ----

  lemma JoinedAssociative(a: Option<seq<string>>, b: Option<seq<string>>, c: Option<seq<string>>)
    ensures Joined(a, Joined(b, c)) == Joined(Joined(a, b), c)
  {
    if a.Some? && b.Some? && c.Some? {
      assert a.value + (b.value + c.value) == (a.value + b.value) + c.value;
    }
  }

  lemma JoinedEmpty(a: Option<seq<string>>)
    ensures Joined(a, Some([])) == a
  {
    if a.Some? {
      assert a.value + [] == a.value;
    }
  }

  lemma BelowConcat(resolve: Resolve, rank: Rank, path: string, a: seq<string>, b: seq<string>)
    requires Below(resolve, rank, path, a + b)
    ensures Below(resolve, rank, path, a) && Below(resolve, rank, path, b)
  {
    assert forall k :: 0 <= k < |a| ==> (a + b)[k] == a[k];
    assert forall k :: 0 <= k < |b| ==> (a + b)[|a| + k] == b[k];
  }

  lemma LastOfConcat(a: seq<string>, b: seq<string>)
    requires b != []
    ensures var n := |b| - 1;
            && (a + b)[|a| + n] == b[n] && (a + b)[..|a| + n] == a + b[..n]
            && (a + b)[..|a| + n + 1] == a + b && b[..n + 1] == b
  {
  }

  /** The expansion of a file whose lines are cut in two is that of the first part followed by that of the second. */
  lemma {:induction false} LinesConcat(files: Files, resolve: Resolve, rank: Rank, path: string,
                                       a: seq<string>, b: seq<string>)
    requires Acyclic(files, resolve, rank, path) && Below(resolve, rank, path, a + b)
    ensures Below(resolve, rank, path, a) && Below(resolve, rank, path, b)
    ensures ExpandLines(files, resolve, rank, path, a + b)
         == Joined(ExpandLines(files, resolve, rank, path, a), ExpandLines(files, resolve, rank, path, b))
    decreases |b|
  {
    BelowConcat(resolve, rank, path, a, b);
    if b == [] {
      assert a + b == a;
      JoinedEmpty(ExpandLines(files, resolve, rank, path, a));
    } else {
      hide Joined, Below, Acyclic, ExpandLine, ExpandLines;
      var n := |b| - 1;
      LastOfConcat(a, b);
      LinesPrefix(files, resolve, rank, path, a + b, |a| + n);
      LinesPrefix(files, resolve, rank, path, b, n);
      LinesConcat(files, resolve, rank, path, a, b[..n]);
      JoinedAssociative(ExpandLines(files, resolve, rank, path, a), ExpandLines(files, resolve, rank, path, b[..n]),
                        ExpandLine(files, resolve, rank, path, b[n]));
    }
  }

  /** A built configuration, read as a file, builds to itself, whatever other files there are. */
  lemma BuildAgain(files: Files, resolve: Resolve, rank: Rank, path: string,
                   files': Files, rank': Rank, path': string)
    requires Acyclic(files, resolve, rank, path) && Expand(files, resolve, rank, path).Some?
    requires Acyclic(files', resolve, rank', path') && path' in files'
    requires files'[path'] == Expand(files, resolve, rank, path).value
    ensures Expand(files', resolve, rank', path') == Expand(files, resolve, rank, path)
  {
    var lines := files'[path'];
    assert Below(resolve, rank', path', lines);
    forall k | 0 <= k < |lines|
      ensures IsPlain(lines[k])
    {
      ContainsExactly(files, resolve, rank, path, lines[k]);
    }
    PlainLines(files', resolve, rank', path', lines);
  }

  /** A plain line below any path contributes itself. */
  lemma PlainLine(files: Files, resolve: Resolve, rank: Rank, path: string, line: string)
    requires Acyclic(files, resolve, rank, path) && Below(resolve, rank, path, [line]) && IsPlain(line)
    ensures ExpandLine(files, resolve, rank, path, line) == Some([line])
  {
  }

  lemma {:induction false} PlainLines(files: Files, resolve: Resolve, rank: Rank, path: string, lines: seq<string>)
    requires Acyclic(files, resolve, rank, path) && Below(resolve, rank, path, lines)
    requires forall k :: 0 <= k < |lines| ==> IsPlain(lines[k])
    ensures ExpandLines(files, resolve, rank, path, lines) == Some(lines)
  {
    if lines != [] {
      hide Acyclic, Below, IsPlain, ExpandLine, ExpandLines;
      var n := |lines| - 1;
      LinesPrefix(files, resolve, rank, path, lines, n);
      PlainLines(files, resolve, rank, path, lines[..n]);
      PlainLine(files, resolve, rank, path, lines[n]);
      assert lines[..n + 1] == lines && lines[..n] + [lines[n]] == lines;
    }
  }

  // ---- The rank plays no part ----

  lemma {:induction false} SameExpansion(files: Files, resolve: Resolve, rank: Rank, rank': Rank,
                                         path: string)
    requires Acyclic(files, resolve, rank, path) && Acyclic(files, resolve, rank', path)
    ensures Expand(files, resolve, rank, path) == Expand(files, resolve, rank', path)
    decreases Level(rank, path), 1, 0
  {
    if path in files {
      assert Below(resolve, rank, path, files[path]) && Below(resolve, rank', path, files[path]);
      SameLines(files, resolve, rank, rank', path, files[path]);
    }
  }

  lemma {:induction false} SameLines(files: Files, resolve: Resolve, rank: Rank, rank': Rank,
                                     path: string, lines: seq<string>)
    requires Acyclic(files, resolve, rank, path) && Acyclic(files, resolve, rank', path)
    requires Below(resolve, rank, path, lines) && Below(resolve, rank', path, lines)
    ensures ExpandLines(files, resolve, rank, path, lines) == ExpandLines(files, resolve, rank', path, lines)
    decreases Level(rank, path), 0, |lines|
  {
    if lines != [] {
      var n := |lines| - 1;
      LinesPrefix(files, resolve, rank, path, lines, n);
      LinesPrefix(files, resolve, rank', path, lines, n);
      SameLines(files, resolve, rank, rank', path, lines[..n]);
      if IsInclude(lines[n]) {
        SameExpansion(files, resolve, rank, rank', Target(resolve, path, lines[n]));
      }
    }
  }
}
