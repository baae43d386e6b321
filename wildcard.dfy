/** The SMB2 search pattern of QUERY_DIRECTORY, compiled to a list of
    tokens and matched against whole names, as the anchored regular
    expression built by the processor would match them. */
module Wildcard {
  import opened Types

  datatype Token =
    | Lit(c: char)     // this exact character
    | One              // `?` not in the trailing run: exactly one character
    | Star             // `*`: any run of characters, possibly empty
    | UpTo(n: nat)     // a trailing run of n `?`: between 0 and n characters

  datatype Matcher = MatchAll | Anchored(tokens: seq<Token>)

  /** Length of the run of `?` that ends the pattern. */
  function TrailingQuestions(p: string): (n: nat)
    ensures n <= |p|
    ensures forall i :: |p| - n <= i < |p| ==> p[i] == '?'
    ensures n < |p| ==> p[|p| - 1 - n] != '?'
  {
    if p != [] && p[|p| - 1] == '?' then TrailingQuestions(p[..|p| - 1]) + 1 else 0
  }

  function TokenOf(c: char): Token
  {
    if c == '?' then One
    else if c == '*' then Star
    else if c == '"' then Lit('.')
    else Lit(c)
  }

  function Tokens(p: string): (ts: seq<Token>)
    ensures |ts| == |p|
    ensures forall i :: 0 <= i < |p| ==> ts[i] == TokenOf(p[i])
  {
    if p == [] then [] else [TokenOf(p[0])] + Tokens(p[1..])
  }

  predicate HasAngle(p: string)
  {
    exists i :: 0 <= i < |p| && (p[i] == '<' || p[i] == '>')
  }

  /** Compile a search pattern; patterns using `<` or `>` are unsupported. */
  function Compile(p: string): Result<Matcher>
  {
    if p == "*.*" || p == "" then Ok(MatchAll)
    else if HasAngle(p) then Err(NotImplemented)
    else
      var n := TrailingQuestions(p);
      var body := Tokens(p[..|p| - n]);
      Ok(Anchored(if n > 0 then body + [UpTo(n)] else body))
  }

  /** Whole-name match of a token list. */
  predicate TokensMatch(ts: seq<Token>, s: string)
    decreases |ts|
  {
    if ts == [] then s == []
    else match ts[0]
      case Lit(c) => |s| > 0 && s[0] == c && TokensMatch(ts[1..], s[1..])
      case One => |s| > 0 && TokensMatch(ts[1..], s[1..])
      case Star => exists k :: 0 <= k <= |s| && TokensMatch(ts[1..], s[k..])
      case UpTo(n) => exists k :: 0 <= k <= n && k <= |s| && TokensMatch(ts[1..], s[k..])
  }

  predicate Matches(m: Matcher, name: string)
  {
    match m
    case MatchAll => true
    case Anchored(ts) => TokensMatch(ts, name)
  }

  /** The pattern is refused exactly when it uses `<` or `>` and is not one
      of the two match-everything patterns. */
  lemma CompileRefusal(p: string)
    ensures Compile(p).Err? <==> p != "*.*" && p != "" && HasAngle(p)
    ensures Compile(p).Err? ==> Compile(p).error == NotImplemented
  {
  }

  /** `*.*`, the empty pattern and `*` match every name. */
  lemma MatchEverything(name: string)
    ensures Compile("*.*") == Ok(MatchAll) && Compile("") == Ok(MatchAll)
    ensures Compile("*").Ok? && Matches(Compile("*").value, name)
  {
    assert "*"[0] == '*';
    assert !HasAngle("*");
    assert TrailingQuestions("*") == 0;
    assert "*"[..1] == "*";
    assert Tokens("*") == [Star];
    assert Compile("*") == Ok(Anchored([Star]));
    assert TokensMatch([Star][1..], name[|name|..]);
  }

  /** A pattern without `?` and `*`. */
  predicate Plain(p: string)
  {
    forall i :: 0 <= i < |p| ==> p[i] != '?' && p[i] != '*'
  }

  /** The one name a plain pattern stands for: `"` read as `.`. */
  function Literal(p: string): (s: string)
    ensures |s| == |p|
  {
    if p == [] then [] else [if p[0] == '"' then '.' else p[0]] + Literal(p[1..])
  }

  lemma {:induction false} PlainTokensMatch(p: string, s: string)
    requires Plain(p)
    ensures TokensMatch(Tokens(p), s) <==> s == Literal(p)
  {
    if p != [] {
      assert Plain(p[1..]) by {
        forall i | 0 <= i < |p| - 1 ensures p[1..][i] != '?' && p[1..][i] != '*' {
          assert p[1..][i] == p[i + 1];
        }
      }
      assert Tokens(p)[1..] == Tokens(p[1..]);
      var l := Literal(p);
      assert l[0] == (if p[0] == '"' then '.' else p[0]) && l[1..] == Literal(p[1..]);
      if |s| > 0 {
        PlainTokensMatch(p[1..], s[1..]);
        if s[0] == l[0] && s[1..] == l[1..] {
          assert s == [s[0]] + s[1..] && l == [l[0]] + l[1..];
        }
      }
    }
  }

  /** A pattern without `?` and `*` matches exactly one name: itself,
      with every `"` read as a literal `.`. */
  lemma PlainPatternMatchesItself(p: string, name: string)
    requires p != "" && p != "*.*" && Plain(p) && !HasAngle(p)
    ensures Compile(p).Ok? && (Matches(Compile(p).value, name) <==> name == Literal(p))
  {
    assert TrailingQuestions(p) == 0;
    assert p[..|p|] == p;
    PlainTokensMatch(p, name);
  }

  /** A trailing run of n `?` after a plain prefix matches the names made
      of that prefix followed by at most n more characters. */
  lemma {:induction false} UpToRun(body: string, n: nat, s: string)
    requires Plain(body)
    ensures TokensMatch(Tokens(body) + [UpTo(n)], s) <==>
              StartsWithAtMost(s, Literal(body), n)
  {
    if body == [] {
      assert Tokens(body) + [UpTo(n)] == [UpTo(n)];
      if StartsWithAtMost(s, Literal(body), n) {
        assert TokensMatch([UpTo(n)][1..], s[|s|..]);
      }
    } else {
      assert Plain(body[1..]) by {
        forall i | 0 <= i < |body| - 1 ensures body[1..][i] != '?' && body[1..][i] != '*' {
          assert body[1..][i] == body[i + 1];
        }
      }
      var ts := Tokens(body) + [UpTo(n)];
      var l := Literal(body);
      assert l[0] == (if body[0] == '"' then '.' else body[0]) && l[1..] == Literal(body[1..]);
      assert ts[0] == Lit(l[0]);
      assert ts[1..] == Tokens(body[1..]) + [UpTo(n)];
      if |s| > 0 {
        UpToRun(body[1..], n, s[1..]);
        assert s == [s[0]] + s[1..];
        assert l == [l[0]] + l[1..];
        if s[0] == l[0] {
          assert StartsWithAtMost(s, l, n) <==> StartsWithAtMost(s[1..], l[1..], n);
        }
      }
    }
  }

  /** `s` is `prefix` followed by between 0 and n characters. */
  predicate StartsWithAtMost(s: string, prefix: string, n: nat)
  {
    |prefix| <= |s| <= |prefix| + n && s[..|prefix|] == prefix
  }

  lemma CompileExamples()
    ensures Compile("a?c") == Ok(Anchored([Lit('a'), One, Lit('c')]))
    ensures Compile("a??") == Ok(Anchored([Lit('a'), UpTo(2)]))
  {
    assert "a?c"[0] == 'a' && "a?c"[1] == '?' && "a?c"[2] == 'c';
    assert !HasAngle("a?c");
    assert TrailingQuestions("a?c") == 0;
    assert "a?c"[..3] == "a?c";
    assert Tokens("a?c") == [Lit('a'), One, Lit('c')];
    assert "a??"[0] == 'a' && "a??"[1] == '?' && "a??"[2] == '?';
    assert !HasAngle("a??");
    assert "a??"[..2] == "a?" && "a?"[..1] == "a";
    assert TrailingQuestions("a??") == 2;
    assert "a??"[..1] == "a";
    assert Tokens("a") == [Lit('a')];
    assert [Lit('a')] + [UpTo(2)] == [Lit('a'), UpTo(2)];
    assert "a??" != "*.*" && "a??" != "";
  }

  /** `a?c` matches `abc` but neither `ac` nor `abbc`. */
  lemma SingleQuestionExamples()
    ensures Compile("a?c").Ok?
    ensures Matches(Compile("a?c").value, "abc")
    ensures !Matches(Compile("a?c").value, "ac")
    ensures !Matches(Compile("a?c").value, "abbc")
  {
    CompileExamples();
    var ts := [Lit('a'), One, Lit('c')];
    assert ts[1..] == [One, Lit('c')] && ts[1..][1..] == [Lit('c')] && ts[1..][1..][1..] == [];
    assert "abc"[1..] == "bc" && "bc"[1..] == "c" && "c"[1..] == "";
    assert TokensMatch(ts, "abc");
    assert "ac"[1..] == "c" && "c"[1..] == "";
    assert !TokensMatch(ts, "ac");
    assert "abbc"[1..] == "bbc" && "bbc"[1..] == "bc";
    assert !TokensMatch(ts, "abbc");
  }

  /** `a??` matches `ab` and `abc` but not `abcd`. */
  lemma TrailingQuestionExamples()
    ensures Compile("a??").Ok?
    ensures Matches(Compile("a??").value, "ab")
    ensures Matches(Compile("a??").value, "abc")
    ensures !Matches(Compile("a??").value, "abcd")
  {
    CompileExamples();
    assert Plain("a");
    assert Tokens("a") == [Lit('a')];
    assert Literal("a") == "a";
    UpToRun("a", 2, "ab");
    UpToRun("a", 2, "abc");
    UpToRun("a", 2, "abcd");
    assert "ab"[..1] == "a" && "abc"[..1] == "a";
  }
}
