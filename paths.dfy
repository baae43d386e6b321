/** Lexical path handling for the share: separator conversion, splitting,
    `Pathname#cleanpath` on absolute paths, and the containment guard that
    keeps every resolved path inside the share root. */
module Paths {
  import opened Types

  /** A host path; the processor only handles absolute ones. */
  type Path = string

  /** The request name in host form: every backslash becomes a slash. */
  function ToSlashes(name: string): (r: string)
    ensures |r| == |name| && '\\' !in r
    ensures forall i :: 0 <= i < |name| && name[i] != '\\' ==> r[i] == name[i]
    ensures forall i :: 0 <= i < |name| && name[i] == '\\' ==> r[i] == '/'
  {
    if name == [] then []
    else [if name[0] == '\\' then '/' else name[0]] + ToSlashes(name[1..])
  }

  /** A path component as the host stores it. */
  predicate ValidName(s: string) { s != "" && '/' !in s }

  /** A component that `cleanpath` keeps: neither `.` nor `..`. */
  predicate NormalName(s: string) { ValidName(s) && s != "." && s != ".." }

  predicate ValidNames(ss: seq<string>) { forall i :: 0 <= i < |ss| ==> ValidName(ss[i]) }

  predicate NormalNames(ss: seq<string>) { forall i :: 0 <= i < |ss| ==> NormalName(ss[i]) }

  /** The components of `s` between slashes, repeated slashes collapsed;
      `cur` is the component read so far. */
  function SplitFrom(s: string, cur: string): seq<string>
  {
    if s == [] then (if cur == [] then [] else [cur])
    else if s[0] == '/' then (if cur == [] then [] else [cur]) + SplitFrom(s[1..], [])
    else SplitFrom(s[1..], cur + [s[0]])
  }

  function Split(s: string): seq<string> { SplitFrom(s, []) }

  function Slashed(segs: seq<string>): string
  {
    if segs == [] then [] else "/" + segs[0] + Slashed(segs[1..])
  }

  /** The absolute path with the given components; no components is `/`. */
  function Join(segs: seq<string>): Path
  {
    if segs == [] then "/" else Slashed(segs)
  }

  /** One component of a left-to-right lexical clean of an absolute path:
      `.` is dropped, `..` removes the last kept component (and at the top
      of the tree stays there), any other component is kept. */
  function CleanStep(stack: seq<string>, seg: string): seq<string>
  {
    if seg == "" || seg == "." then stack
    else if seg == ".." then (if stack == [] then [] else stack[..|stack| - 1])
    else stack + [seg]
  }

  function Clean(stack: seq<string>, segs: seq<string>): seq<string>
    decreases |segs|
  {
    if segs == [] then stack else Clean(CleanStep(stack, segs[0]), segs[1..])
  }

  /** `Pathname#cleanpath` of an absolute path. */
  function CleanPath(p: string): Path
  {
    Join(Clean([], Split(p)))
  }

  predicate StartsWith(s: string, prefix: string)
  {
    |prefix| <= |s| && s[..|prefix|] == prefix
  }

  /** The guard as written: the path is the root or starts with root + "/". */
  predicate ContainedAsWritten(root: Path, p: Path)
  {
    p == root || StartsWith(p, root + "/")
  }

  /** The root with exactly one separator after it. */
  function RootPrefix(root: Path): string
  {
    if |root| > 0 && root[|root| - 1] == '/' then root else root + "/"
  }

  /** The guard as intended: the path is the root or lies below it. */
  predicate Contained(root: Path, p: Path)
  {
    p == root || StartsWith(p, RootPrefix(root))
  }

  /** The string arm of the path lookup, with the guard as written. */
  function ResolveAsWritten(root: Path, path: string): Result<Path>
  {
    var p := CleanPath(root + "/" + path);
    if ContainedAsWritten(root, p) then Ok(p) else Err(PathEscape)
  }

  /** The string arm of the path lookup, with the intended guard. */
  function Resolve(root: Path, path: string): (r: Result<Path>)
    ensures r.Ok? ==> Contained(root, r.value)
    ensures r.Err? ==> r.error == PathEscape
  {
    var p := CleanPath(root + "/" + path);
    if Contained(root, p) then Ok(p) else Err(PathEscape)
  }

  // ---------------------------------------------------------------------
  // Directory structure of paths

  function Parent(p: Path): Path
  {
    var segs := Split(p);
    if segs == [] then "/" else Join(segs[..|segs| - 1])
  }

  function Basename(p: Path): string
  {
    var segs := Split(p);
    if segs == [] then "/" else segs[|segs| - 1]
  }

  function ChildPath(dir: Path, name: string): Path
  {
    Join(Split(dir) + [name])
  }

  /** A path as `cleanpath` leaves it. */
  predicate IsClean(p: Path)
  {
    NormalNames(Split(p)) && Join(Split(p)) == p
  }

  // ---------------------------------------------------------------------
  // Splitting and joining

  lemma {:induction false} SplitFromValid(s: string, cur: string)
    requires '/' !in cur
    ensures ValidNames(SplitFrom(s, cur))
    decreases |s|
  {
    if s != [] {
      if s[0] == '/' {
        SplitFromValid(s[1..], []);
      } else {
        SplitFromValid(s[1..], cur + [s[0]]);
      }
    }
  }

  lemma {:induction false} SplitFromNoSlash(s: string, t: string, cur: string)
    requires '/' !in s
    ensures SplitFrom(s + t, cur) == SplitFrom(t, cur + s)
    decreases |s|
  {
    if s == [] {
      assert s + t == t;
      assert cur + s == cur;
    } else {
      assert (s + t)[0] == s[0];
      assert (s + t)[1..] == s[1..] + t;
      SplitFromNoSlash(s[1..], t, cur + [s[0]]);
      assert cur + [s[0]] + s[1..] == cur + s;
    }
  }

  lemma {:induction false} SplitFromConcat(a: string, b: string, cur: string)
    ensures SplitFrom(a + "/" + b, cur) == SplitFrom(a, cur) + SplitFrom(b, [])
    decreases |a|
  {
    if a == [] {
      assert a + "/" + b == "/" + b;
      assert ("/" + b)[1..] == b;
    } else {
      assert (a + "/" + b)[0] == a[0];
      assert (a + "/" + b)[1..] == a[1..] + "/" + b;
      if a[0] == '/' {
        SplitFromConcat(a[1..], b, []);
      } else {
        SplitFromConcat(a[1..], b, cur + [a[0]]);
      }
    }
  }

  /** Splitting at an inserted separator splits the two halves apart. */
  lemma SplitConcat(a: string, b: string)
    ensures Split(a + "/" + b) == Split(a) + Split(b)
  {
    SplitFromConcat(a, b, []);
  }

  lemma SplitFromLeadingSlash(x: string, cur: string)
    ensures SplitFrom("/" + x, cur) == (if cur == [] then [] else [cur]) + SplitFrom(x, [])
  {
    assert ("/" + x)[0] == '/';
    assert ("/" + x)[1..] == x;
  }

  lemma ValidNamesTail(segs: seq<string>)
    requires segs != [] && ValidNames(segs)
    ensures ValidName(segs[0]) && ValidNames(segs[1..])
  {
    forall i | 0 <= i < |segs| - 1 ensures ValidName(segs[1..][i]) { assert segs[1..][i] == segs[i + 1]; }
  }

  lemma {:induction false} SplitFromSlashed(segs: seq<string>, cur: string)
    requires ValidNames(segs) && '/' !in cur
    ensures SplitFrom(Slashed(segs), cur) == (if cur == [] then [] else [cur]) + segs
  {
    if segs == [] {
    } else {
      ValidNamesTail(segs);
      var s, rest := segs[0], segs[1..];
      assert Slashed(segs) == "/" + (s + Slashed(rest));
      SplitFromLeadingSlash(s + Slashed(rest), cur);
      SplitFromNoSlash(s, Slashed(rest), []);
      assert [] + s == s;
      SplitFromSlashed(rest, s);
      assert [s] + rest == segs;
    }
  }

  lemma SplitSlashed(segs: seq<string>)
    requires ValidNames(segs)
    ensures Split(Slashed(segs)) == segs
  {
    SplitFromSlashed(segs, []);
  }

  /** Join and Split are inverse on component lists. */
  lemma SplitJoin(segs: seq<string>)
    requires ValidNames(segs)
    ensures Split(Join(segs)) == segs
  {
    if segs == [] {
      assert Split("/") == SplitFrom([], []);
    } else {
      SplitSlashed(segs);
    }
  }

  lemma {:induction false} SlashedConcat(a: seq<string>, b: seq<string>)
    ensures Slashed(a + b) == Slashed(a) + Slashed(b)
  {
    if a == [] {
      assert a + b == b;
    } else {
      assert (a + b)[0] == a[0];
      assert (a + b)[1..] == a[1..] + b;
      SlashedConcat(a[1..], b);
    }
  }

  // ---------------------------------------------------------------------
  // Cleaning

  lemma {:induction false} CleanNormal(stack: seq<string>, segs: seq<string>)
    requires NormalNames(stack) && ValidNames(segs)
    ensures NormalNames(Clean(stack, segs))
    decreases |segs|
  {
    if segs != [] {
      var next := CleanStep(stack, segs[0]);
      assert NormalNames(next);
      assert ValidNames(segs[1..]) by {
        forall i | 0 <= i < |segs| - 1 ensures ValidName(segs[1..][i]) { assert segs[1..][i] == segs[i + 1]; }
      }
      CleanNormal(next, segs[1..]);
    }
  }

  lemma {:induction false} CleanKeepsNormal(stack: seq<string>, segs: seq<string>)
    requires NormalNames(segs)
    ensures Clean(stack, segs) == stack + segs
    decreases |segs|
  {
    if segs == [] {
      assert stack + segs == stack;
    } else {
      assert NormalNames(segs[1..]) by {
        forall i | 0 <= i < |segs| - 1 ensures NormalName(segs[1..][i]) { assert segs[1..][i] == segs[i + 1]; }
      }
      CleanKeepsNormal(stack + [segs[0]], segs[1..]);
      assert stack + [segs[0]] + segs[1..] == stack + segs;
    }
  }

  lemma {:induction false} CleanAppend(stack: seq<string>, a: seq<string>, b: seq<string>)
    ensures Clean(stack, a + b) == Clean(Clean(stack, a), b)
    decreases |a|
  {
    if a == [] {
      assert a + b == b;
    } else {
      assert (a + b)[0] == a[0];
      assert (a + b)[1..] == a[1..] + b;
      CleanAppend(CleanStep(stack, a[0]), a[1..], b);
    }
  }

  // ---------------------------------------------------------------------
  // The containment guard

  lemma StartsWithConcat(x: string, y: string)
    ensures StartsWith(x + y, x)
  {
    assert (x + y)[..|x|] == x;
  }

  lemma JoinAppend(rs: seq<string>, t: seq<string>)
    requires rs != [] && t != []
    ensures StartsWith(Join(rs + t), Join(rs) + "/")
  {
    var a := Slashed(rs);
    var b := Slashed(t);
    var rest := t[0] + Slashed(t[1..]);
    SlashedConcat(rs, t);
    assert rs + t != [];
    assert Join(rs) == a;
    assert Join(rs + t) == a + b;
    assert b == ("/" + t[0]) + Slashed(t[1..]);
    assert b == "/" + rest;
    assert a + b == (a + "/") + rest;
    StartsWithConcat(a + "/", rest);
  }

  lemma {:induction false} SlashedLastChar(segs: seq<string>)
    requires segs != [] && ValidNames(segs)
    ensures |Slashed(segs)| > 0 && Slashed(segs)[|Slashed(segs)| - 1] != '/'
  {
    ValidNamesTail(segs);
    var s, rest := segs[0], segs[1..];
    if rest == [] {
      assert Slashed(segs) == "/" + s;
    } else {
      SlashedLastChar(rest);
      assert Slashed(segs) == ("/" + s) + Slashed(rest);
    }
  }

  /** A root other than `/` does not end in a separator. */
  lemma RootPrefixBelowTop(rs: seq<string>)
    requires rs != [] && ValidNames(rs)
    ensures RootPrefix(Join(rs)) == Join(rs) + "/"
  {
    SlashedLastChar(rs);
  }

  lemma JoinNonEmptyStartsWithName(xs: seq<string>)
    requires xs != [] && ValidName(xs[0])
    ensures |Join(xs)| >= 2 && Join(xs)[0] == '/' && Join(xs)[1] != '/'
  {
    assert Join(xs) == "/" + xs[0] + Slashed(xs[1..]);
    assert Join(xs)[1] == xs[0][0];
  }

  /** Below a string prefix ending in a separator lie exactly the
      component lists that extend the root's. */
  lemma PrefixOfSplit(rs: seq<string>, xs: seq<string>)
    requires ValidNames(rs) && ValidNames(xs)
    requires StartsWith(Join(xs), Join(rs) + "/")
    ensures rs <= xs
  {
    var s := Join(xs);
    var k := |Join(rs)|;
    var tail := s[k + 1..];
    assert s == Join(rs) + "/" + tail by {
      assert s[..k + 1] == Join(rs) + "/";
      assert s == s[..k + 1] + s[k + 1..];
    }
    SplitConcat(Join(rs), tail);
    SplitJoin(rs);
    SplitJoin(xs);
    assert xs == rs + Split(tail);
  }

  /** The written guard, on clean paths under a root other than `/`,
      admits a path exactly when its components extend the root's. */
  lemma ContainedAsWrittenIsPrefix(rs: seq<string>, xs: seq<string>)
    requires rs != [] && ValidNames(rs) && ValidNames(xs)
    ensures ContainedAsWritten(Join(rs), Join(xs)) <==> rs <= xs
  {
    if ContainedAsWritten(Join(rs), Join(xs)) {
      if Join(xs) == Join(rs) {
        SplitJoin(rs);
        SplitJoin(xs);
      } else {
        PrefixOfSplit(rs, xs);
      }
    }
    if rs <= xs {
      if xs != rs {
        var t := xs[|rs|..];
        assert xs == rs + t;
        JoinAppend(rs, t);
      }
    }
  }

  /** The intended guard admits exactly the extensions of the root's
      components, for every root including `/`. */
  lemma ContainedIsPrefix(rs: seq<string>, xs: seq<string>)
    requires ValidNames(rs) && ValidNames(xs)
    ensures Contained(Join(rs), Join(xs)) <==> rs <= xs
  {
    if rs == [] {
      assert RootPrefix(Join(rs)) == "/";
      if xs != [] {
        JoinNonEmptyStartsWithName(xs);
      }
    } else {
      RootPrefixBelowTop(rs);
      ContainedAsWrittenIsPrefix(rs, xs);
    }
  }

  /** The two guards agree whenever the root is not `/`. */
  lemma GuardsAgreeBelowTop(rs: seq<string>, path: string)
    requires rs != [] && ValidNames(rs)
    ensures ResolveAsWritten(Join(rs), path) == Resolve(Join(rs), path)
  {
    RootPrefixBelowTop(rs);
  }

  /** A string path resolves to the clean of root + "/" + path, which is
      admitted exactly when it stays below the root's components. */
  lemma ResolveCharacterized(rs: seq<string>, path: string)
    requires NormalNames(rs)
    ensures var c := Clean(rs, Split(path));
            && NormalNames(c)
            && (Resolve(Join(rs), path).Ok? <==> rs <= c)
            && (Resolve(Join(rs), path).Ok? ==> Resolve(Join(rs), path).value == Join(c))
  {
    var root := Join(rs);
    var segs := Split(path);
    SplitConcat(root, path);
    SplitJoin(rs);
    assert Split(root + "/" + path) == rs + segs;
    CleanAppend([], rs, segs);
    CleanKeepsNormal([], rs);
    assert [] + rs == rs;
    var c := Clean(rs, segs);
    assert Clean([], rs + segs) == c;
    SplitFromValid(path, []);
    CleanNormal(rs, segs);
    ContainedIsPrefix(rs, c);
  }

  /** What the guard admits is a clean path. */
  lemma ResolvedIsClean(rs: seq<string>, path: string)
    requires NormalNames(rs)
    requires Resolve(Join(rs), path).Ok?
    ensures IsClean(Resolve(Join(rs), path).value)
  {
    ResolveCharacterized(rs, path);
    SplitJoin(Clean(rs, Split(path)));
  }

  /** Under the root `/` the written guard admits nothing but the root
      itself: `"/" + "/"` is `//`, which no clean path other than `/`
      starts with. */
  lemma TopRootAsWritten(path: string)
    ensures ResolveAsWritten("/", path).Ok? <==> Clean([], Split(path)) == []
    ensures Resolve("/", path).Ok?
  {
    var c := Clean([], Split(path));
    SplitConcat("/", path);
    assert Split("/") == [];
    assert Split("/" + "/" + path) == Split(path);
    SplitFromValid(path, []);
    CleanNormal([], Split(path));
    ContainedIsPrefix([], c);
    if c != [] {
      JoinNonEmptyStartsWithName(c);
      assert Join(c) != "/";
      assert !StartsWith(Join(c), "//");
    }
  }

  lemma SplitName(n: string)
    requires ValidName(n)
    ensures Split(n) == [n]
  {
    SplitFromNoSlash(n, [], []);
    assert n + [] == n;
    assert [] + n == n;
  }

  /** The share root `/` and the request path `etc`. */
  lemma TopRootCounterexample()
    ensures ResolveAsWritten("/", "etc") == Err(PathEscape)
    ensures Resolve("/", "etc") == Ok("/etc")
  {
    SplitName("etc");
    TopRootAsWritten("etc");
    assert Clean([], ["etc"]) == ["etc"];
    SplitConcat("/", "etc");
    assert Split("/") == [];
    assert Join(["etc"]) == "/etc";
  }

  lemma SplitTraversal()
    ensures Split("../etc/passwd") == ["..", "etc", "passwd"]
  {
    SplitName(".."); SplitName("etc"); SplitName("passwd");
    assert "etc/passwd" == "etc" + "/" + "passwd";
    SplitConcat("etc", "passwd");
    assert "../etc/passwd" == ".." + "/" + "etc/passwd";
    SplitConcat("..", "etc/passwd");
  }

  lemma CleanTraversal()
    ensures Clean(["srv", "share"], ["..", "etc", "passwd"]) == ["srv", "etc", "passwd"]
  {
    assert CleanStep(["srv", "share"], "..") == ["srv"];
    assert ["..", "etc", "passwd"][1..] == ["etc", "passwd"];
    assert ["etc", "passwd"][1..] == ["passwd"];
    assert ["srv"] + ["etc"] == ["srv", "etc"];
    assert ["srv", "etc"] + ["passwd"] == ["srv", "etc", "passwd"];
  }

  lemma JoinShare()
    ensures Join(["srv", "share"]) == "/srv/share"
  {
    var rs := ["srv", "share"];
    assert rs[1..] == ["share"];
    assert ["share"][1..] == [];
    assert Slashed(["share"]) == "/share";
  }

  /** A traversal that ends outside the share is refused. */
  lemma EscapeIsRefused()
    ensures Resolve("/srv/share", "../etc/passwd") == Err(PathEscape)
  {
    var rs := ["srv", "share"];
    JoinShare();
    SplitTraversal();
    CleanTraversal();
    ResolveCharacterized(rs, "../etc/passwd");
    assert rs[1] != ["srv", "etc", "passwd"][1];
  }

  // ---------------------------------------------------------------------
  // Parents and children

  /** A child of a clean directory has that directory as its parent and
      its own name as its basename, and is neither the directory nor the
      directory's parent. */
  lemma ChildOfDirectory(d: Path, n: string)
    requires IsClean(d) && NormalName(n)
    ensures Parent(ChildPath(d, n)) == d
    ensures Basename(ChildPath(d, n)) == n
    ensures ChildPath(d, n) != d && ChildPath(d, n) != Parent(d)
  {
    var ds := Split(d);
    var cs := ds + [n];
    assert ValidNames(cs) by {
      forall i | 0 <= i < |cs| ensures ValidName(cs[i]) { if i < |ds| { assert cs[i] == ds[i]; } }
    }
    SplitJoin(cs);
    assert cs[..|cs| - 1] == ds;
    if ds != [] {
      var ps := ds[..|ds| - 1];
      assert ValidNames(ps) by {
        forall i | 0 <= i < |ps| ensures ValidName(ps[i]) { assert ps[i] == ds[i]; }
      }
      SplitJoin(ps);
    }
  }

  /** A clean path is its own parent exactly when it is `/`. */
  lemma ParentOfSelf(d: Path)
    requires IsClean(d)
    ensures Parent(d) == d <==> d == "/"
  {
    var ds := Split(d);
    if ds != [] {
      var ps := ds[..|ds| - 1];
      assert ValidNames(ps) by {
        forall i | 0 <= i < |ps| ensures ValidName(ps[i]) { assert ps[i] == ds[i]; }
      }
      SplitJoin(ps);
      JoinNonEmptyStartsWithName(ds);
    }
  }
}
