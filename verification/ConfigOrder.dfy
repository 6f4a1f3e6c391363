/**
 * The order of a built configuration (pkg/common/parser.go, BuildConfigFile): its lines are the
 * occurrences of plain lines in the tree of includes, each once, in the order of a walk through the tree.
 */
module ConfigOrder {
  import opened ConfigFlattener

  /** The line numbers on the way from the root file: those of the include lines, and then that of the line. */
  type Occurrence = seq<nat>

  predicate Denotes(files: Files, resolve: Resolve, path: string, occurrence: Occurrence, x: string)
    decreases |occurrence|
  {
    && occurrence != [] && path in files && occurrence[0] < |files[path]|
    && var line := files[path][occurrence[0]];
       if |occurrence| == 1 then IsPlain(line) && line == x
       else IsInclude(line) && Denotes(files, resolve, Target(resolve, path, line), occurrence[1..], x)
  }

  /** Lexicographic order. */
  predicate Before(a: Occurrence, b: Occurrence)
  {
    a != [] && b != [] && (a[0] < b[0] || (a[0] == b[0] && Before(a[1..], b[1..])))
  }

  predicate StartsIn(occurrence: Occurrence, lo: nat, hi: nat) { occurrence != [] && lo <= occurrence[0] < hi }

  /** The occurrences of the lines, one for each. */
  predicate AllDenote(files: Files, resolve: Resolve, path: string, lines: seq<string>, occurrences: seq<Occurrence>)
  {
    && |occurrences| == |lines|
    && forall i :: 0 <= i < |lines| ==> Denotes(files, resolve, path, occurrences[i], lines[i])
  }

  predicate Sorted(occurrences: seq<Occurrence>)
  {
    forall i, j :: 0 <= i < j < |occurrences| ==> Before(occurrences[i], occurrences[j])
  }

  /** All occurrences that start at the given lines of the file are there, and no others. */
  ghost predicate Complete(files: Files, resolve: Resolve, path: string, lo: nat, hi: nat, occurrences: seq<Occurrence>)
  {
    && (forall o: Occurrence :: o in occurrences ==> StartsIn(o, lo, hi))
    && forall o: Occurrence, x: string ::
         Denotes(files, resolve, path, o, x) && StartsIn(o, lo, hi) ==> o in occurrences
  }

  ghost predicate Lists(files: Files, resolve: Resolve, path: string, lo: nat, hi: nat,
                        lines: seq<string>, occurrences: seq<Occurrence>)
  {
    && AllDenote(files, resolve, path, lines, occurrences) && Sorted(occurrences)
    && Complete(files, resolve, path, lo, hi, occurrences)
  }

  lemma DenoteConcat(files: Files, resolve: Resolve, path: string,
                     a: seq<string>, b: seq<string>, s: seq<Occurrence>, t: seq<Occurrence>)
    requires AllDenote(files, resolve, path, a, s) && AllDenote(files, resolve, path, b, t)
    ensures AllDenote(files, resolve, path, a + b, s + t)
  {
    hide Denotes;
  }

  lemma CompleteConcat(files: Files, resolve: Resolve, path: string, lo: nat, mid: nat, hi: nat,
                       s: seq<Occurrence>, t: seq<Occurrence>)
    requires lo <= mid <= hi && Complete(files, resolve, path, lo, mid, s) && Complete(files, resolve, path, mid, hi, t)
    ensures Complete(files, resolve, path, lo, hi, s + t)
  {
    hide Denotes;
    forall o: Occurrence | o in s + t
      ensures StartsIn(o, lo, hi)
    {
      assert o in s || o in t;
      assert StartsIn(o, lo, mid) || StartsIn(o, mid, hi);
    }
    forall o: Occurrence, x: string | Denotes(files, resolve, path, o, x) && StartsIn(o, lo, hi)
      ensures o in s + t
    {
      assert StartsIn(o, lo, mid) || StartsIn(o, mid, hi);
    }
  }

  lemma ListsConcat(files: Files, resolve: Resolve, path: string, lo: nat, mid: nat, hi: nat,
                    a: seq<string>, b: seq<string>, s: seq<Occurrence>, t: seq<Occurrence>)
    requires lo <= mid <= hi && Lists(files, resolve, path, lo, mid, a, s) && Lists(files, resolve, path, mid, hi, b, t)
    ensures Lists(files, resolve, path, lo, hi, a + b, s + t)
  {
    DenoteConcat(files, resolve, path, a, b, s, t);
    CompleteConcat(files, resolve, path, lo, mid, hi, s, t);
    SortedConcat(s, t, lo, mid, hi);
    hide AllDenote, Sorted, Complete;
  }

  lemma SortedConcat(s: seq<Occurrence>, t: seq<Occurrence>, lo: nat, mid: nat, hi: nat)
    requires Sorted(s) && Sorted(t)
    requires forall o: Occurrence :: o in s ==> StartsIn(o, lo, mid)
    requires forall o: Occurrence :: o in t ==> StartsIn(o, mid, hi)
    ensures Sorted(s + t)
  {
    forall i, j | 0 <= i < j < |s + t|
      ensures Before((s + t)[i], (s + t)[j])
    {
      if i < |s| <= j {
        assert s[i] in s && t[j - |s|] in t;
      }
    }
  }

  /** The occurrences in an included file, seen from the include line. */
  function Under(k: nat, occurrences: seq<Occurrence>): (r: seq<Occurrence>)
    ensures |r| == |occurrences| && forall i :: 0 <= i < |r| ==> r[i] == [k] + occurrences[i]
  {
    seq(|occurrences|, i requires 0 <= i < |occurrences| => [k] + occurrences[i])
  }

  lemma DenotesUnder(files: Files, resolve: Resolve, path: string, k: nat, o: Occurrence, x: string)
    requires path in files && k < |files[path]| && IsInclude(files[path][k])
    ensures Denotes(files, resolve, path, [k] + o, x)
       <==> Denotes(files, resolve, Target(resolve, path, files[path][k]), o, x)
  {
    assert ([k] + o)[1..] == o;
  }

  lemma BeforeUnder(k: nat, a: Occurrence, b: Occurrence)
    ensures Before([k] + a, [k] + b) <==> Before(a, b)
  {
    assert ([k] + a)[1..] == a && ([k] + b)[1..] == b;
  }

  /** A file that is included by line k. */
  lemma ListsUnder(files: Files, resolve: Resolve, path: string, k: nat, lines: seq<string>, s: seq<Occurrence>)
    requires path in files && k < |files[path]| && IsInclude(files[path][k])
    requires var target := Target(resolve, path, files[path][k]);
             target in files && Lists(files, resolve, target, 0, |files[target]|, lines, s)
    ensures Lists(files, resolve, path, k, k + 1, lines, Under(k, s))
  {
    var target := Target(resolve, path, files[path][k]);
    var u := Under(k, s);
    forall i | 0 <= i < |lines|
      ensures Denotes(files, resolve, path, u[i], lines[i])
    {
      DenotesUnder(files, resolve, path, k, s[i], lines[i]);
    }
    forall i, j | 0 <= i < j < |u|
      ensures Before(u[i], u[j])
    {
      BeforeUnder(k, s[i], s[j]);
    }
    forall o: Occurrence, x: string | Denotes(files, resolve, path, o, x) && StartsIn(o, k, k + 1)
      ensures o in u
    {
      var rest := o[1..];
      assert o == [k] + rest;
      DenotesUnder(files, resolve, path, k, rest, x);
      assert StartsIn(rest, 0, |files[target]|);
      assert rest in s;
      var i :| 0 <= i < |s| && s[i] == rest;
      assert u[i] == o;
    }
  }

  /** A plain line or a comment. */
  lemma ListsLine(files: Files, resolve: Resolve, path: string, k: nat)
    requires path in files && k < |files[path]| && !IsInclude(files[path][k])
    ensures if IsComment(files[path][k]) then Lists(files, resolve, path, k, k + 1, [], [])
            else Lists(files, resolve, path, k, k + 1, [files[path][k]], [[k]])
  {
    forall o: Occurrence, x: string | Denotes(files, resolve, path, o, x) && StartsIn(o, k, k + 1)
      ensures o == [k]
    {
    }
  }

  lemma {:induction false} ListFile(files: Files, resolve: Resolve, rank: Rank, path: string)
    returns (occurrences: seq<Occurrence>)
    requires Acyclic(files, resolve, rank, path) && Expand(files, resolve, rank, path).Some?
    ensures path in files
    ensures Lists(files, resolve, path, 0, |files[path]|, Expand(files, resolve, rank, path).value, occurrences)
    decreases Level(rank, path), 1, 0
  {
    var lines := files[path];
    assert Below(resolve, rank, path, lines);
    assert lines[..|lines|] == lines;
    occurrences := ListLines(files, resolve, rank, path, |lines|);
  }

  lemma {:induction false} ListLines(files: Files, resolve: Resolve, rank: Rank, path: string, n: nat)
    returns (occurrences: seq<Occurrence>)
    requires Acyclic(files, resolve, rank, path) && path in files && n <= |files[path]|
    requires Below(resolve, rank, path, files[path][..n])
    requires ExpandLines(files, resolve, rank, path, files[path][..n]).Some?
    ensures Lists(files, resolve, path, 0, n,
                  ExpandLines(files, resolve, rank, path, files[path][..n]).value, occurrences)
    decreases Level(rank, path), 0, n
  {
    if n == 0 {
      occurrences := [];
      NothingListed(files, resolve, path);
    } else {
      var lines := files[path];
      var k := n - 1;
      assert Below(resolve, rank, path, lines);
      LinesPrefix(files, resolve, rank, path, lines, k);
      var piece := ExpandLine(files, resolve, rank, path, lines[k]);
      var before := ListLines(files, resolve, rank, path, k);
      var last;
      if IsInclude(lines[k]) {
        var sub := ListFile(files, resolve, rank, Target(resolve, path, lines[k]));
        ListsUnder(files, resolve, path, k, piece.value, sub);
        last := Under(k, sub);
      } else {
        ListsLine(files, resolve, path, k);
        last := if IsComment(lines[k]) then [] else [[k]];
      }
      hide Lists;
      ListsConcat(files, resolve, path, 0, k, n,
                  ExpandLines(files, resolve, rank, path, lines[..k]).value, piece.value, before, last);
      occurrences := before + last;
    }
  }

  lemma NothingListed(files: Files, resolve: Resolve, path: string)
    ensures Lists(files, resolve, path, 0, 0, [], [])
  {
  }

  /** There is a plain line there. */
  ghost predicate Occurs(files: Files, resolve: Resolve, path: string, o: Occurrence)
  {
    exists x :: Denotes(files, resolve, path, o, x)
  }

  lemma ListedDenotes(files: Files, resolve: Resolve, path: string, lines: seq<string>,
                      occurrences: seq<Occurrence>, o: Occurrence)
    requires AllDenote(files, resolve, path, lines, occurrences) && o in occurrences
    ensures Occurs(files, resolve, path, o)
  {
    hide Denotes;
    var i :| 0 <= i < |occurrences| && occurrences[i] == o;
    assert Denotes(files, resolve, path, occurrences[i], lines[i]);
  }

  lemma DenotedListed(files: Files, resolve: Resolve, path: string, occurrences: seq<Occurrence>, o: Occurrence)
    requires path in files && Complete(files, resolve, path, 0, |files[path]|, occurrences)
    requires Occurs(files, resolve, path, o)
    ensures o in occurrences
  {
    assert StartsIn(o, 0, |files[path]|);
  }

  /**
   * The lines of a built configuration have occurrences in strictly increasing lexicographic order, and
   * these are all there are: no line is lost, repeated or moved.
   */
  lemma InOrder(files: Files, resolve: Resolve, rank: Rank, path: string)
    returns (occurrences: seq<Occurrence>)
    requires Acyclic(files, resolve, rank, path) && Expand(files, resolve, rank, path).Some?
    ensures AllDenote(files, resolve, path, Expand(files, resolve, rank, path).value, occurrences)
    ensures Sorted(occurrences)
    ensures forall o: Occurrence :: o in occurrences <==> Occurs(files, resolve, path, o)
  {
    occurrences := ListFile(files, resolve, rank, path);
    var lines := Expand(files, resolve, rank, path).value;
    hide Occurs, AllDenote, Complete;
    forall o: Occurrence
      ensures o in occurrences <==> Occurs(files, resolve, path, o)
    {
      if o in occurrences {
        ListedDenotes(files, resolve, path, lines, occurrences, o);
      }
      if Occurs(files, resolve, path, o) {
        DenotedListed(files, resolve, path, occurrences, o);
      }
    }
  }
}
