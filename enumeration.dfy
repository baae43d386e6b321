/** One QUERY_DIRECTORY pass over an enumeration cursor, as a function of
    the cursor, and what it guarantees about the records it returns and
    the cursor it leaves behind. */
module Enumeration {
  import opened Types
  import opened Align
  import opened Paths
  import opened Wildcard
  import opened Metadata
  import Chain

  /** What stays fixed during one pass: the filesystem, the directory
      being listed, the compiled search pattern and the record class. */
  datatype Scope = Scope(fs: FileSystem, dir: Path, matcher: Matcher, cls: DirClass)

  /** The directory itself is listed as `.`, its parent as `..`, and every
      other entry under its basename. */
  function DisplayName(sc: Scope, p: Path): string
  {
    if p == sc.dir then "." else if p == Parent(sc.dir) then ".." else Basename(p)
  }

  /** An entry the pass reports: a file or directory whose display name matches. */
  predicate Candidate(sc: Scope, p: Path)
  {
    Exists(sc.fs, p) && Matches(sc.matcher, DisplayName(sc, p))
  }

  function InfoOf(sc: Scope, p: Path): DirInfo
    requires p in sc.fs
  {
    BuildInfo(sc.cls, sc.fs[p], DisplayName(sc, p))
  }

  function ChildPaths(dir: Path, names: seq<string>): (ps: seq<Path>)
    ensures |ps| == |names|
    ensures forall i :: 0 <= i < |names| ==> ps[i] == ChildPath(dir, names[i])
  {
    if names == [] then [] else [ChildPath(dir, names[0])] + ChildPaths(dir, names[1..])
  }

  /** A fresh cursor: the directory, its parent unless it is its own
      parent, then its children in their sorted order. */
  function InitialCursor(fs: FileSystem, dir: Path): (c: seq<Path>)
    requires IsDirectory(fs, dir)
    ensures |c| > 0 && c[0] == dir
    ensures Parent(dir) != dir ==> |c| > 1 && c[1] == Parent(dir)
    ensures |c| == (if Parent(dir) == dir then 1 else 2) + |fs[dir].entries|
    ensures c[|c| - |fs[dir].entries|..] == ChildPaths(dir, fs[dir].entries)
  {
    [dir] + (if Parent(dir) == dir then [] else [Parent(dir)]) + ChildPaths(dir, fs[dir].entries)
  }

  /** Every record of the cursor that the pass could report, in order. */
  function Matching(sc: Scope, ds: seq<Path>): seq<DirInfo>
  {
    if ds == [] then []
    else (if Candidate(sc, ds[0]) then [InfoOf(sc, ds[0])] else []) + Matching(sc, ds[1..])
  }

  /** Size of each record once padded to 8 bytes. */
  function PaddedSizes(infos: seq<DirInfo>, size: DirInfo -> nat): (s: seq<nat>)
    ensures |s| == |infos|
    ensures forall i :: 0 <= i < |infos| ==> s[i] == Pad8(size(infos[i]))
  {
    if infos == [] then [] else [Pad8(size(infos[0]))] + PaddedSizes(infos[1..], size)
  }

  /** One pass: drop entries that are not reported, take records while
      their padded sizes fit in `budget`, put back the first one that does
      not fit, stop after one record when `single`. Returns the records
      and the cursor left for the next call. */
  function Pass(sc: Scope, ds: seq<Path>, budget: nat, single: bool, size: DirInfo -> nat): (seq<DirInfo>, seq<Path>)
    decreases |ds|
  {
    if ds == [] then ([], [])
    else if !Candidate(sc, ds[0]) then Pass(sc, ds[1..], budget, single, size)
    else
      var info := InfoOf(sc, ds[0]);
      var n := Pad8(size(info));
      if n > budget then ([], ds)
      else if single then ([info], ds[1..])
      else
        var next := Pass(sc, ds[1..], budget - n, single, size);
        ([info] + next.0, next.1)
  }

  // ---------------------------------------------------------------------

  lemma {:induction false} MatchingAppend(sc: Scope, a: seq<Path>, b: seq<Path>)
    ensures Matching(sc, a + b) == Matching(sc, a) + Matching(sc, b)
  {
    if a != [] {
      assert (a + b)[0] == a[0];
      assert (a + b)[1..] == a[1..] + b;
      MatchingAppend(sc, a[1..], b);
    } else {
      assert a + b == b;
    }
  }

  lemma {:induction false} PaddedSizesAppend(a: seq<DirInfo>, b: seq<DirInfo>, size: DirInfo -> nat)
    ensures PaddedSizes(a + b, size) == PaddedSizes(a, size) + PaddedSizes(b, size)
  {
    var l := PaddedSizes(a + b, size);
    var r := PaddedSizes(a, size) + PaddedSizes(b, size);
    forall i | 0 <= i < |l| ensures l[i] == r[i] {
      if i < |a| {
        assert (a + b)[i] == a[i];
      } else {
        assert (a + b)[i] == b[i - |a|];
      }
    }
  }

  lemma {:induction false} SumCons(x: nat, s: seq<nat>)
    ensures Chain.Sum([x] + s) == x + Chain.Sum(s)
    decreases |s|
  {
    if s == [] {
      assert [x] + s == [x];
      assert [x][..0] == [];
    } else {
      var init := s[..|s| - 1];
      assert ([x] + s)[..|s|] == [x] + init;
      SumCons(x, init);
    }
  }

  lemma {:induction false} PassBudget(sc: Scope, ds: seq<Path>, budget: nat, single: bool, size: DirInfo -> nat)
    ensures Chain.Sum(PaddedSizes(Pass(sc, ds, budget, single, size).0, size)) <= budget
    decreases |ds|, 1
  {
    if ds == [] {
    } else if !Candidate(sc, ds[0]) {
      PassBudget(sc, ds[1..], budget, single, size);
    } else if Pad8(size(InfoOf(sc, ds[0]))) > budget {
    } else if single {
      assert PaddedSizes([InfoOf(sc, ds[0])], size) == [Pad8(size(InfoOf(sc, ds[0])))] + [];
      SumCons(Pad8(size(InfoOf(sc, ds[0]))), []);
    } else {
      PassBudgetTake(sc, ds, budget, size);
    }
  }

  lemma {:induction false} PassBudgetTake(sc: Scope, ds: seq<Path>, budget: nat, size: DirInfo -> nat)
    requires ds != [] && Candidate(sc, ds[0]) && Pad8(size(InfoOf(sc, ds[0]))) <= budget
    ensures Chain.Sum(PaddedSizes(Pass(sc, ds, budget, false, size).0, size)) <= budget
    decreases |ds|, 0
  {
    var info := InfoOf(sc, ds[0]);
    var n := Pad8(size(info));
    var e' := Pass(sc, ds[1..], budget - n, false, size).0;
    PassTakes(sc, ds, budget, size);
    PassBudget(sc, ds[1..], budget - n, false, size);
    PaddedCons(info, e', size);
  }

  /** An entry that is not reported is dropped from the cursor. */
  lemma PassSkips(sc: Scope, ds: seq<Path>, budget: nat, single: bool, size: DirInfo -> nat)
    requires ds != [] && !Candidate(sc, ds[0])
    ensures Pass(sc, ds, budget, single, size) == Pass(sc, ds[1..], budget, single, size)
  {
  }

  /** A reportable record that does not fit ends the pass and stays in
      the cursor. */
  lemma PassStops(sc: Scope, ds: seq<Path>, budget: nat, single: bool, size: DirInfo -> nat)
    requires ds != [] && Candidate(sc, ds[0]) && Pad8(size(InfoOf(sc, ds[0]))) > budget
    ensures Pass(sc, ds, budget, single, size) == ([], ds)
  {
  }

  /** Outside single mode, a reportable record that fits is taken and the
      pass goes on with the rest of the budget. */
  lemma PassTakes(sc: Scope, ds: seq<Path>, budget: nat, size: DirInfo -> nat)
    requires ds != [] && Candidate(sc, ds[0]) && Pad8(size(InfoOf(sc, ds[0]))) <= budget
    ensures Pass(sc, ds, budget, false, size).0
            == [InfoOf(sc, ds[0])] + Pass(sc, ds[1..], budget - Pad8(size(InfoOf(sc, ds[0]))), false, size).0
    ensures Pass(sc, ds, budget, false, size).1
            == Pass(sc, ds[1..], budget - Pad8(size(InfoOf(sc, ds[0]))), false, size).1
  {
  }

  lemma PaddedCons(info: DirInfo, e: seq<DirInfo>, size: DirInfo -> nat)
    ensures Chain.Sum(PaddedSizes([info] + e, size)) == Pad8(size(info)) + Chain.Sum(PaddedSizes(e, size))
  {
    assert PaddedSizes([info] + e, size) == [Pad8(size(info))] + PaddedSizes(e, size);
    SumCons(Pad8(size(info)), PaddedSizes(e, size));
  }

  lemma {:induction false} PassRest(sc: Scope, ds: seq<Path>, budget: nat, single: bool, size: DirInfo -> nat)
    ensures var e := Pass(sc, ds, budget, single, size).0;
            var rest := Pass(sc, ds, budget, single, size).1;
            && |rest| <= |ds| && rest == ds[|ds| - |rest|..]
            && (e != [] ==> |rest| < |ds|)
            && (single ==> |e| <= 1)
    decreases |ds|
  {
    if ds != [] {
      var rest := Pass(sc, ds, budget, single, size).1;
      if !Candidate(sc, ds[0]) {
        PassRest(sc, ds[1..], budget, single, size);
        assert ds[1..][|ds| - 1 - |rest|..] == ds[|ds| - |rest|..];
      } else {
        var n := Pad8(size(InfoOf(sc, ds[0])));
        if n <= budget && !single {
          PassRest(sc, ds[1..], budget - n, single, size);
          assert ds[1..][|ds| - 1 - |rest|..] == ds[|ds| - |rest|..];
        }
      }
    }
  }

  lemma {:induction false} PassConserves(sc: Scope, ds: seq<Path>, budget: nat, single: bool, size: DirInfo -> nat)
    ensures var e := Pass(sc, ds, budget, single, size).0;
            var rest := Pass(sc, ds, budget, single, size).1;
            e + Matching(sc, rest) == Matching(sc, ds)
    decreases |ds|
  {
    if ds != [] {
      if !Candidate(sc, ds[0]) {
        PassConserves(sc, ds[1..], budget, single, size);
      } else {
        var info := InfoOf(sc, ds[0]);
        var n := Pad8(size(info));
        if n <= budget && !single {
          var e' := Pass(sc, ds[1..], budget - n, single, size).0;
          var r' := Pass(sc, ds[1..], budget - n, single, size).1;
          PassConserves(sc, ds[1..], budget - n, single, size);
          assert [info] + e' + Matching(sc, r') == [info] + (e' + Matching(sc, r'));
        }
      }
    } else {
      assert Matching(sc, []) == [];
    }
  }

  /** The records of a pass fit in the budget, it leaves a suffix of the
      cursor, and they are exactly the reportable records of the part of
      the cursor it consumed, in order. With `single` it returns at most
      one record. */
  lemma PassShape(sc: Scope, ds: seq<Path>, budget: nat, single: bool, size: DirInfo -> nat)
    ensures var e := Pass(sc, ds, budget, single, size).0;
            var rest := Pass(sc, ds, budget, single, size).1;
            && Chain.Sum(PaddedSizes(e, size)) <= budget
            && |rest| <= |ds| && rest == ds[|ds| - |rest|..]
            && e == Matching(sc, ds[..|ds| - |rest|])
            && e + Matching(sc, rest) == Matching(sc, ds)
            && (single ==> |e| <= 1)
            && (e != [] ==> |rest| < |ds|)
  {
    var e := Pass(sc, ds, budget, single, size).0;
    var rest := Pass(sc, ds, budget, single, size).1;
    PassBudget(sc, ds, budget, single, size);
    PassRest(sc, ds, budget, single, size);
    PassConserves(sc, ds, budget, single, size);
    var k := |ds| - |rest|;
    assert ds[..k] + rest == ds;
    MatchingAppend(sc, ds[..k], rest);
    var m := Matching(sc, ds[..k]);
    assert e + Matching(sc, rest) == m + Matching(sc, rest);
    assert |e| == |m|;
    assert e == (e + Matching(sc, rest))[..|e|];
    assert m == (m + Matching(sc, rest))[..|m|];
  }

  /** A pass returns nothing exactly when nothing is left to report or the
      next reportable record alone is larger than the budget. */
  lemma {:induction false} PassEmpty(sc: Scope, ds: seq<Path>, budget: nat, single: bool, size: DirInfo -> nat)
    ensures var m := Matching(sc, ds);
            Pass(sc, ds, budget, single, size).0 == [] <==> (m == [] || Pad8(size(m[0])) > budget)
    decreases |ds|
  {
    if ds != [] && !Candidate(sc, ds[0]) {
      PassEmpty(sc, ds[1..], budget, single, size);
      assert Matching(sc, ds) == Matching(sc, ds[1..]);
    }
  }

  /** The outcome of a pass that stopped only at the end of the cursor or
      at a reportable record that would overflow the budget. */
  predicate Greedy(sc: Scope, outcome: (seq<DirInfo>, seq<Path>), budget: nat, size: DirInfo -> nat)
  {
    outcome.1 == [] ||
    (Candidate(sc, outcome.1[0]) &&
     Chain.Sum(PaddedSizes(outcome.0, size)) + Pad8(size(InfoOf(sc, outcome.1[0]))) > budget)
  }

  /** Greedy: unless `single` cut it short, a pass stops only when the
      next reportable record would overflow the budget; the entry put back
      is that record's. */
  lemma {:induction false} PassIsGreedy(sc: Scope, ds: seq<Path>, budget: nat, size: DirInfo -> nat)
    ensures Greedy(sc, Pass(sc, ds, budget, false, size), budget, size)
    decreases |ds|, 1
  {
    if ds == [] {
      assert Pass(sc, ds, budget, false, size).1 == [];
    } else if !Candidate(sc, ds[0]) {
      PassSkips(sc, ds, budget, false, size);
      PassIsGreedy(sc, ds[1..], budget, size);
    } else if Pad8(size(InfoOf(sc, ds[0]))) > budget {
      PassStops(sc, ds, budget, false, size);
      assert PaddedSizes([], size) == [];
    } else {
      PassIsGreedyTake(sc, ds, budget, size);
    }
  }

  lemma {:induction false} PassIsGreedyTake(sc: Scope, ds: seq<Path>, budget: nat, size: DirInfo -> nat)
    requires ds != [] && Candidate(sc, ds[0]) && Pad8(size(InfoOf(sc, ds[0]))) <= budget
    ensures Greedy(sc, Pass(sc, ds, budget, false, size), budget, size)
    decreases |ds|, 0
  {
    var info := InfoOf(sc, ds[0]);
    var n := Pad8(size(info));
    var e' := Pass(sc, ds[1..], budget - n, false, size).0;
    PassTakes(sc, ds, budget, size);
    PassIsGreedy(sc, ds[1..], budget - n, size);
    PaddedCons(info, e', size);
  }

  /** The records of successive calls on one cursor, until a call returns
      nothing (at most `calls` calls). */
  function Drain(sc: Scope, ds: seq<Path>, budget: nat, single: bool, size: DirInfo -> nat, calls: nat): seq<DirInfo>
    decreases calls
  {
    if calls == 0 then []
    else
      var e := Pass(sc, ds, budget, single, size).0;
      var rest := Pass(sc, ds, budget, single, size).1;
      if e == [] then [] else e + Drain(sc, rest, budget, single, size, calls - 1)
  }

  /** When every reportable record fits in the budget on its own, calling
      until NO_MORE_FILES returns every reportable record exactly once, in
      cursor order. */
  lemma {:induction false} DrainReturnsAll(sc: Scope, ds: seq<Path>, budget: nat, single: bool, size: DirInfo -> nat, calls: nat)
    requires calls >= |ds|
    requires forall i :: 0 <= i < |Matching(sc, ds)| ==> Pad8(size(Matching(sc, ds)[i])) <= budget
    ensures Drain(sc, ds, budget, single, size, calls) == Matching(sc, ds)
    decreases calls
  {
    var e := Pass(sc, ds, budget, single, size).0;
    var rest := Pass(sc, ds, budget, single, size).1;
    PassShape(sc, ds, budget, single, size);
    PassEmpty(sc, ds, budget, single, size);
    if Matching(sc, ds) != [] {
      assert ds != [];
      assert e != [];
      var m := Matching(sc, rest);
      assert Matching(sc, ds) == e + m;
      forall i | 0 <= i < |m| ensures Pad8(size(m[i])) <= budget {
        assert m[i] == Matching(sc, ds)[|e| + i];
      }
      DrainReturnsAll(sc, rest, budget, single, size, calls - 1);
    } else if calls > 0 {
      assert e == [];
    }
  }

  /** The directory is listed as `.`, a parent distinct from it as `..`,
      and a child of it under its own name. */
  lemma DisplayNames(sc: Scope, n: string)
    requires IsClean(sc.dir) && NormalName(n)
    ensures DisplayName(sc, sc.dir) == "."
    ensures Parent(sc.dir) != sc.dir ==> DisplayName(sc, Parent(sc.dir)) == ".."
    ensures DisplayName(sc, ChildPath(sc.dir, n)) == n
  {
    ChildOfDirectory(sc.dir, n);
  }

  /** The display names of a cursor, in order. */
  function DisplayNamesOf(sc: Scope, c: seq<Path>): (names: seq<string>)
    ensures |names| == |c|
    ensures forall i :: 0 <= i < |c| ==> names[i] == DisplayName(sc, c[i])
  {
    if c == [] then [] else [DisplayName(sc, c[0])] + DisplayNamesOf(sc, c[1..])
  }

  /** A fresh cursor of a clean directory reads ".", then ".." unless the
      directory is its own parent, then the entry names in listing order. */
  lemma InitialDisplayNames(sc: Scope)
    requires IsDirectory(sc.fs, sc.dir) && IsClean(sc.dir)
    requires forall i :: 0 <= i < |sc.fs[sc.dir].entries| ==> NormalName(sc.fs[sc.dir].entries[i])
    ensures DisplayNamesOf(sc, InitialCursor(sc.fs, sc.dir))
            == ["."] + (if Parent(sc.dir) == sc.dir then [] else [".."]) + sc.fs[sc.dir].entries
  {
    var entries := sc.fs[sc.dir].entries;
    var c := InitialCursor(sc.fs, sc.dir);
    var names := DisplayNamesOf(sc, c);
    var expected := ["."] + (if Parent(sc.dir) == sc.dir then [] else [".."]) + entries;
    var k := |c| - |entries|;
    forall i | 0 <= i < |c| ensures names[i] == expected[i] {
      if i < k {
        DisplayNames(sc, "x");
      } else {
        assert c[i] == c[k..][i - k] == ChildPath(sc.dir, entries[i - k]);
        DisplayNames(sc, entries[i - k]);
      }
    }
  }
}
