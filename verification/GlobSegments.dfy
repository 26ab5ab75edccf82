/** A compiled glob means what a matcher that compares path segments says. */
module GlobSegments {
  import opened Glob

  /** The segments between slashes. */
  function Split(s: string): (r: seq<string>)
    ensures r != []
    decreases |s|
  {
    if s == "" then [""]
    else
      var rest := Split(s[1..]);
      if s[0] == '/' then [""] + rest else [[s[0]] + rest[0]] + rest[1..]
  }

  /** One segment against one segment: `*` takes any runes, `?` takes one. */
  predicate NameMatch(p: string, u: string)
    decreases |p| + |u|
  {
    if p == "" then u == ""
    else if p[0] == '*' then NameMatch(p[1..], u) || (u != "" && NameMatch(p, u[1..]))
    else u != "" && (p[0] == '?' || p[0] == u[0]) && NameMatch(p[1..], u[1..])
  }

  /** A path against a pattern, segment by segment: `**` takes zero or more segments. */
  predicate SegMatch(ps: seq<string>, us: seq<string>)
    decreases |ps| + |us|
  {
    if ps == [] then us == []
    else if ps[0] == "**" then SegMatch(ps[1..], us) || (us != [] && SegMatch(ps, us[1..]))
    else us != [] && NameMatch(ps[0], us[0]) && SegMatch(ps[1..], us[1..])
  }

  predicate HasGlobstar(p: string) {
    exists i {:trigger p[i]} :: 0 <= i < |p| - 1 && p[i] == '*' && p[i + 1] == '*'
  }

  /** `**` or a segment without it. */
  predicate GoodSegment(p: string) {
    '/' !in p && (p == "**" || !HasGlobstar(p))
  }

  ghost predicate GoodSegments(ps: seq<string>) {
    forall i :: 0 <= i < |ps| ==> GoodSegment(ps[i])
  }

  /** A segment of a clean path. */
  predicate CleanSegment(u: string) {
    u != "" && '/' !in u && '\n' !in u
  }

  ghost predicate CleanSegments(us: seq<string>) {
    forall i :: 0 <= i < |us| ==> CleanSegment(us[i])
  }

  /** The segments, each with a slash in front. */
  function Rest(ps: seq<string>): string {
    if ps == [] then "" else "/" + (ps[0] + Rest(ps[1..]))
  }

  function Join(ps: seq<string>): string {
    if ps == [] then "" else ps[0] + Rest(ps[1..])
  }

  lemma JoinCons(c: char, rest: seq<string>)
    requires rest != []
    ensures Join([""] + rest) == "/" + Join(rest)
    ensures Join([[c] + rest[0]] + rest[1..]) == [c] + Join(rest)
  {
  }

  lemma {:induction false} JoinSplit(s: string)
    ensures Join(Split(s)) == s
    ensures forall i :: 0 <= i < |Split(s)| ==> '/' !in Split(s)[i]
    decreases |s|
  {
    if s != "" {
      JoinSplit(s[1..]);
      JoinCons(s[0], Split(s[1..]));
      hide Join;
      assert s == [s[0]] + s[1..];
    }
  }

  lemma RestUnfolds(ps: seq<string>)
    ensures Rest([]) == ""
    ensures ps != [] ==> Rest(ps) == "/" + Join(ps) && Join(ps) == ps[0] + Rest(ps[1..])
    ensures ps != [] ==> Rest(ps) == ("/" + ps[0]) + Rest(ps[1..])
    ensures ps != [] ==> Rest(ps) != "" && Rest(ps)[0] == '/'
  {
  }

  /** Empty, or starting with a slash. */
  predicate AtSlash(s: string) {
    s == "" || s[0] == '/'
  }

  // How patterns compile

  function NameToken(c: char): Token {
    if c == '*' then Star else if c == '?' then One else Lit(c)
  }

  function NameTokens(p: string): seq<Token> {
    if p == "" then [] else [NameToken(p[0])] + NameTokens(p[1..])
  }

  lemma NextInName(p: string, rest: string)
    requires p != "" && '/' !in p && !HasGlobstar(p) && AtSlash(rest)
    ensures Next(p + rest) == (1, NameToken(p[0]))
  {
    var t := p + rest;
    assert t[0] == p[0] && (1 < |t| ==> t[1] == if 1 < |p| then p[1] else rest[0]);
    assert p[0] != '/';
    if p[0] == '*' {
      assert 1 < |p| ==> p[1] != '*';
      NotPrefix(t, "**", 1);
      NotPrefix(t, "**/", 1);
    } else {
      NotPrefix(t, "**", 0);
      NotPrefix(t, "**/", 0);
    }
    NotPrefix(t, "/**", 0);
  }

  lemma {:induction false} CompileName(p: string, rest: string)
    requires '/' !in p && !HasGlobstar(p) && AtSlash(rest)
    ensures Compile(p + rest) == NameTokens(p) + Compile(rest)
  {
    hide Next;
    if p == "" {
      assert p + rest == rest;
    } else {
      NextInName(p, rest);
      assert (p + rest)[1..] == p[1..] + rest;
      assert !HasGlobstar(p[1..]) by {
        assert forall i :: 0 <= i < |p| - 2 ==> p[1..][i] == p[i + 1];
      }
      CompileName(p[1..], rest);
    }
  }

  lemma CompileFirstGlobstar(rest: seq<string>)
    ensures Compile(Join(["**"] + rest)) == if rest == [] then [DotStar] else [OptDirs] + Compile(Join(rest))
  {
    RestUnfolds(rest);
    assert (["**"] + rest)[1..] == rest;
    hide Rest;
    var t := "**" + Rest(rest);
    assert Join(["**"] + rest) == t;
    if rest == [] {
      assert t == "**";
      NotPrefix(t, "**/", 2);
      NotPrefix(t, "/**", 0);
      assert Compile("") == [];
    } else {
      hide Join;
      assert t == "**/" + Join(rest);
      PrefixOf("**/", Join(rest));
    }
  }

  lemma CompileNextGlobstar(rest: string)
    ensures Compile("/**" + rest) == [OptSuffix] + Compile(rest)
  {
  }

  lemma CompileSlash(p: string, rest: string)
    requires p != "**" && GoodSegment(p) && AtSlash(rest)
    ensures Compile("/" + (p + rest)) == [Lit('/')] + Compile(p + rest)
  {
    var t := "/" + (p + rest);
    assert t[1..] == p + rest;
    NotPrefix(t, "**/", 0);
    NotPrefix(t, "**", 0);
    if p != "" && p[0] == '*' {
      assert 2 < |t| ==> t[2] == if 1 < |p| then p[1] else rest[0];
      assert 1 < |p| ==> p[1] != '*';
      NotPrefix(t, "/**", 2);
    } else {
      assert 1 < |t| ==> t[1] == if p != "" then p[0] else rest[0];
      NotPrefix(t, "/**", 1);
    }
    hide HasPrefix;
  }

  // How expressions match

  ghost predicate AtSlashOnly(ts: seq<Token>) {
    forall v :: Matches(ts, v) ==> AtSlash(v)
  }

  lemma MatchesIntro(t: Token, ts: seq<Token>, s: string, k: nat)
    requires k <= |s| && TokenMatches(t, s[..k]) && Matches(ts, s[k..])
    ensures Matches([t] + ts, s)
  {
  }

  lemma MatchesElim(t: Token, ts: seq<Token>, s: string) returns (k: nat)
    requires Matches([t] + ts, s)
    ensures k <= |s| && TokenMatches(t, s[..k]) && Matches(ts, s[k..])
  {
    assert ([t] + ts)[1..] == ts;
    hide TokenMatches;
    k :| 0 <= k <= |s| && TokenMatches(t, s[..k]) && Matches(ts, s[k..]);
  }

  lemma MatchesRune(t: Token, ts: seq<Token>, s: string)
    requires t.Lit? || t.One?
    ensures Matches([t] + ts, s) <==> s != "" && TokenMatches(t, s[..1]) && Matches(ts, s[1..])
  {
  }

  lemma MatchesStar(ts: seq<Token>, s: string)
    ensures Matches([Star] + ts, s) <==> Matches(ts, s) || (s != "" && s[0] != '/' && Matches([Star] + ts, s[1..]))
  {
    hide Matches;
    if Matches([Star] + ts, s) {
      var k := MatchesElim(Star, ts, s);
      if k == 0 {
        assert s[0..] == s;
      } else {
        assert s[..k][0] == s[0] && s[1..][..k - 1] == s[..k][1..] && s[1..][k - 1..] == s[k..];
        MatchesIntro(Star, ts, s[1..], k - 1);
      }
    }
    if Matches(ts, s) {
      assert s[..0] == "" && s[0..] == s;
      MatchesIntro(Star, ts, s, 0);
    }
    if s != "" && s[0] != '/' && Matches([Star] + ts, s[1..]) {
      var k := MatchesElim(Star, ts, s[1..]);
      assert s[..k + 1] == [s[0]] + s[1..][..k] && s[k + 1..] == s[1..][k..];
      MatchesIntro(Star, ts, s, k + 1);
    }
  }

  /** A name takes exactly the segment in front of the next slash. */
  lemma {:induction false} MatchesName(p: string, ts: seq<Token>, u: string, rest: string)
    requires '/' !in u && '/' !in p && AtSlash(rest) && AtSlashOnly(ts)
    ensures Matches(NameTokens(p) + ts, u + rest) <==> NameMatch(p, u) && Matches(ts, rest)
    decreases |p| + |u|
  {
    var s := u + rest;
    hide Matches, TokenMatches, NameTokens, NameMatch;
    NameUnfolds(p, u);
    if p == "" {
      assert [] + ts == ts;
      assert u == "" ==> s == rest;
      assert u != "" ==> s[0] == u[0];
    } else {
      var more := NameTokens(p[1..]) + ts;
      assert NameTokens(p) + ts == [NameToken(p[0])] + more;
      assert u != "" ==> s[0] == u[0] && s[1..] == u[1..] + rest;
      assert u == "" ==> s == rest;
      if p[0] == '*' {
        MatchesStar(more, s);
        MatchesName(p[1..], ts, u, rest);
        if u != "" {
          MatchesName(p, ts, u[1..], rest);
        }
      } else {
        MatchesRune(NameToken(p[0]), more, s);
        if s != "" {
          RuneMatches(p[0], s[0]);
          assert s[..1] == [s[0]];
        }
        if u != "" {
          MatchesName(p[1..], ts, u[1..], rest);
        }
      }
    }
  }

  lemma NameUnfolds(p: string, u: string)
    ensures NameTokens(p) == if p == "" then [] else [NameToken(p[0])] + NameTokens(p[1..])
    ensures NameMatch(p, u) ==
      if p == "" then u == ""
      else if p[0] == '*' then NameMatch(p[1..], u) || (u != "" && NameMatch(p, u[1..]))
      else u != "" && (p[0] == '?' || p[0] == u[0]) && NameMatch(p[1..], u[1..])
  {
  }

  lemma RuneMatches(p: char, c: char)
    requires p != '*' && p != '/'
    ensures NameToken(p).Lit? || NameToken(p).One?
    ensures TokenMatches(NameToken(p), [c]) <==> c != '/' && (p == '?' || p == c)
  {
  }

  lemma {:induction false} AllGlobstars(ps: seq<string>, us: seq<string>)
    requires ps != [] && SegMatch(ps, [])
    ensures SegMatch(ps, us)
    decreases |ps| + |us|
  {
    if ps[1..] != [] {
      AllGlobstars(ps[1..], us);
    } else if us != [] {
      AllGlobstars(ps, us[1..]);
    }
  }

  lemma GoodTail(ps: seq<string>)
    requires ps != [] && GoodSegments(ps)
    ensures GoodSegment(ps[0]) && GoodSegments(ps[1..])
  {
  }

  lemma CleanTail(us: seq<string>)
    requires us != [] && CleanSegments(us)
    ensures CleanSegment(us[0]) && CleanSegments(us[1..])
  {
  }

  /** The tokens of the segments behind the first. */
  lemma CompileRest(ps: seq<string>)
    requires ps != [] && GoodSegments(ps)
    ensures Compile(Rest(ps)) ==
      if ps[0] == "**" then [OptSuffix] + Compile(Rest(ps[1..]))
      else [Lit('/')] + (NameTokens(ps[0]) + Compile(Rest(ps[1..])))
  {
    GoodTail(ps);
    RestUnfolds(ps);
    RestUnfolds(ps[1..]);
    hide Rest, Compile, NameTokens, Join;
    if ps[0] == "**" {
      CompileNextGlobstar(Rest(ps[1..]));
    } else {
      CompileSlash(ps[0], Rest(ps[1..]));
      CompileName(ps[0], Rest(ps[1..]));
    }
  }

  lemma MatchesNothing(s: string)
    ensures Matches([], s) <==> s == ""
  {
  }

  /** Behind a segment, an expression matches nothing but the empty text or one that starts with a slash. */
  lemma {:induction false} RestAtSlash(ps: seq<string>)
    requires GoodSegments(ps)
    ensures AtSlashOnly(Compile(Rest(ps)))
  {
    hide Matches, Compile, Rest, NameTokens, GoodSegments;
    RestUnfolds(ps);
    if ps == [] {
      CompileNothing();
      assert AtSlashOnly([]) by {
        forall v | Matches([], v)
          ensures AtSlash(v)
        {
          MatchesNothing(v);
        }
      }
    } else {
      GoodTail(ps);
      CompileRest(ps);
      RestAtSlash(ps[1..]);
      var ts := Compile(Rest(ps[1..]));
      forall v | Matches(Compile(Rest(ps)), v)
        ensures AtSlash(v)
      {
        if ps[0] == "**" {
          var k := MatchesElim(OptSuffix, ts, v);
          assert k == 0 ==> v[k..] == v;
        } else {
          MatchesRune(Lit('/'), NameTokens(ps[0]) + ts, v);
        }
      }
    }
  }

  lemma CompileNothing()
    ensures Compile("") == []
  {
  }

  lemma {:induction false} RestHasNoNewline(us: seq<string>)
    requires CleanSegments(us)
    ensures '\n' !in Rest(us)
  {
    if us != [] {
      CleanTail(us);
      RestHasNoNewline(us[1..]);
    }
  }

  lemma JoinHasNoNewline(us: seq<string>)
    requires CleanSegments(us)
    ensures '\n' !in Join(us)
  {
    if us != [] {
      CleanTail(us);
      RestHasNoNewline(us[1..]);
    }
  }

  lemma MatchesLater(t: Token, ts: seq<Token>, s: string)
    requires (t.Star? || t.OptDirs? || t.OptSuffix?) && Matches(ts, s)
    ensures Matches([t] + ts, s)
  {
    hide Matches;
    assert s[..0] == "" && s[0..] == s;
    MatchesIntro(t, ts, s, 0);
  }

  /** OptSuffix behind a segment takes nothing, or the next segment and perhaps more. */
  lemma MatchesSuffix(ts: seq<Token>, us: seq<string>)
    requires CleanSegments(us) && AtSlashOnly(ts)
    ensures Matches([OptSuffix] + ts, Rest(us))
      <==> Matches(ts, Rest(us)) || (us != [] && Matches([OptSuffix] + ts, Rest(us[1..])))
  {
    hide *;
    if Matches(ts, Rest(us)) {
      MatchesLater(OptSuffix, ts, Rest(us));
    }
    if Matches([OptSuffix] + ts, Rest(us)) {
      var k := MatchesElim(OptSuffix, ts, Rest(us));
      if k == 0 {
        assert Rest(us)[0..] == Rest(us);
      } else {
        SuffixTail(ts, us, k);
      }
    }
    if us != [] && Matches([OptSuffix] + ts, Rest(us[1..])) {
      var k := MatchesElim(OptSuffix, ts, Rest(us[1..]));
      LongerSuffix(ts, us, k);
    }
  }

  lemma LongerSuffix(ts: seq<Token>, us: seq<string>, k: nat)
    requires us != [] && CleanSegments(us) && k <= |Rest(us[1..])|
    requires TokenMatches(OptSuffix, Rest(us[1..])[..k]) && Matches(ts, Rest(us[1..])[k..])
    ensures Matches([OptSuffix] + ts, Rest(us))
  {
    var s, n := Rest(us), 1 + |us[0]|;
    RestUnfolds(us);
    RestHasNoNewline(us);
    hide Matches, Rest, Join, CleanSegments;
    assert s[n + k..] == Rest(us[1..])[k..];
    var u := s[..n + k];
    assert u[0] == '/';
    forall i | 0 <= i < |u[1..]|
      ensures u[1..][i] != '\n'
    {
      assert u[1..][i] == s[i + 1];
    }
    MatchesIntro(OptSuffix, ts, s, n + k);
  }

  lemma SuffixTail(ts: seq<Token>, us: seq<string>, k: nat)
    requires CleanSegments(us) && AtSlashOnly(ts) && 0 < k <= |Rest(us)|
    requires TokenMatches(OptSuffix, Rest(us)[..k]) && Matches(ts, Rest(us)[k..])
    ensures us != [] && Matches([OptSuffix] + ts, Rest(us[1..]))
  {
    assert AtSlash(Rest(us)[k..]);
    RestUnfolds(us);
    hide *;
    CleanTail(us);
    BehindSegment(us[0], Rest(us[1..]), k);
    RestHasNoNewline(us[1..]);
    RestStartsAtSlash(us[1..]);
    SuffixTailOf(ts, "/" + us[0], Rest(us[1..]), k);
  }

  /** From inside a segment, the text does not go on with a slash. */
  lemma BehindSegment(u: string, r: string, k: nat)
    requires CleanSegment(u) && 0 < k <= |("/" + u) + r| && AtSlash((("/" + u) + r)[k..])
    ensures |u| < k
  {
  }

  lemma SuffixTailOf(ts: seq<Token>, a: string, r: string, k: nat)
    requires |a| <= k <= |a + r| && '\n' !in r && AtSlash(r) && Matches(ts, (a + r)[k..])
    ensures Matches([OptSuffix] + ts, r)
  {
    hide Matches;
    TailOf(a, r, k);
    var front := r[..k - |a|];
    assert front == "" || front[0] == r[0];
    assert forall i :: 0 <= i < |front| ==> front[i] in r;
    MatchesIntro(OptSuffix, ts, r, k - |a|);
  }

  /** OptDirs at the front takes nothing, or the first segment and perhaps more, but never the last one. */
  lemma MatchesDirs(ts: seq<Token>, us: seq<string>)
    requires us != [] && CleanSegments(us)
    ensures Matches([OptDirs] + ts, Join(us))
      <==> Matches(ts, Join(us)) || (1 < |us| && Matches([OptDirs] + ts, Join(us[1..])))
  {
    hide *;
    if Matches(ts, Join(us)) {
      MatchesLater(OptDirs, ts, Join(us));
    }
    if Matches([OptDirs] + ts, Join(us)) {
      var k := MatchesElim(OptDirs, ts, Join(us));
      if k == 0 {
        assert Join(us)[0..] == Join(us);
      } else {
        DirsTail(ts, us, k);
      }
    }
    if 1 < |us| && Matches([OptDirs] + ts, Join(us[1..])) {
      var k := MatchesElim(OptDirs, ts, Join(us[1..]));
      LongerDirs(ts, us, k);
    }
  }

  lemma LongerDirs(ts: seq<Token>, us: seq<string>, k: nat)
    requires 1 < |us| && CleanSegments(us) && k <= |Join(us[1..])|
    requires TokenMatches(OptDirs, Join(us[1..])[..k]) && Matches(ts, Join(us[1..])[k..])
    ensures Matches([OptDirs] + ts, Join(us))
  {
    RestUnfolds(us);
    RestUnfolds(us[1..]);
    CleanTail(us);
    assert '\n' !in us[0];
    hide *;
    LongerDirsOf(ts, us[0], Join(us[1..]), k);
    assert Join(us) == (us[0] + "/") + Join(us[1..]);
  }

  lemma LongerDirsOf(ts: seq<Token>, d: string, r: string, k: nat)
    requires k <= |r| && '\n' !in d && TokenMatches(OptDirs, r[..k]) && Matches(ts, r[k..])
    ensures Matches([OptDirs] + ts, (d + "/") + r)
  {
    hide *;
    OneMoreDir(d, r[..k]);
    PartsOf(d + "/", r, k);
    MatchesIntro(OptDirs, ts, (d + "/") + r, |d + "/"| + k);
  }

  lemma PartsOf(a: string, r: string, k: nat)
    requires k <= |r|
    ensures (a + r)[|a| + k..] == r[k..] && (a + r)[..|a| + k] == a + r[..k]
  {
  }

  lemma OneMoreDir(d: string, u: string)
    requires '\n' !in d && TokenMatches(OptDirs, u)
    ensures TokenMatches(OptDirs, d + "/" + u)
  {
  }

  /** A slash comes only behind the first segment, and not at the end. */
  lemma SlashBehindFirst(us: seq<string>, k: nat)
    requires us != [] && CleanSegments(us) && 0 < k <= |Join(us)| && Join(us)[k - 1] == '/'
    ensures 1 < |us| && |us[0]| < k && Join(us) == us[0] + "/" + Join(us[1..])
  {
  }

  lemma EndsInSlash(u: string)
    requires u != "" && TokenMatches(OptDirs, u)
    ensures u[|u| - 1] == '/'
  {
  }

  lemma DirsTail(ts: seq<Token>, us: seq<string>, k: nat)
    requires us != [] && CleanSegments(us) && 0 < k <= |Join(us)|
    requires TokenMatches(OptDirs, Join(us)[..k]) && Matches(ts, Join(us)[k..])
    ensures 1 < |us| && Matches([OptDirs] + ts, Join(us[1..]))
  {
    hide *;
    EndsInSlash(Join(us)[..k]);
    LastOfFront(Join(us), k);
    SlashBehindFirst(us, k);
    CleanTail(us);
    JoinHasNoNewline(us[1..]);
    DirsTailOf(ts, us[0] + "/", Join(us[1..]), k);
  }

  lemma LastOfFront(s: string, k: nat)
    requires 0 < k <= |s|
    ensures s[..k] != "" && s[..k][|s[..k]| - 1] == s[k - 1]
  {
  }

  lemma TailOf(a: string, r: string, k: nat)
    requires |a| <= k <= |a + r|
    ensures (a + r)[k..] == r[k - |a|..]
    ensures |a| < k ==> (a + r)[k - 1] == r[k - |a| - 1]
  {
  }

  lemma DirsTailOf(ts: seq<Token>, a: string, r: string, k: nat)
    requires 0 < k && |a| <= k <= |a + r| && '\n' !in r && (a + r)[k - 1] == '/'
    requires Matches(ts, (a + r)[k..])
    ensures Matches([OptDirs] + ts, r)
  {
    hide *;
    TailOf(a, r, k);
    DirsFront(r, k - |a|);
    MatchesIntro(OptDirs, ts, r, k - |a|);
  }

  lemma DirsFront(r: string, k: nat)
    requires k <= |r| && '\n' !in r && (0 < k ==> r[k - 1] == '/')
    ensures TokenMatches(OptDirs, r[..k])
  {
  }

  lemma SegMatchUnfolds(ps: seq<string>, us: seq<string>)
    ensures SegMatch(ps, us) ==
      if ps == [] then us == []
      else if ps[0] == "**" then SegMatch(ps[1..], us) || (us != [] && SegMatch(ps, us[1..]))
      else us != [] && NameMatch(ps[0], us[0]) && SegMatch(ps[1..], us[1..])
  {
  }

  /** Behind the first segment the expression means what the segments say. */
  lemma {:induction false} RestMatches(ps: seq<string>, us: seq<string>)
    requires GoodSegments(ps) && CleanSegments(us)
    ensures Matches(Compile(Rest(ps)), Rest(us)) <==> SegMatch(ps, us)
    decreases |ps| + |us|
  {
    hide *;
    RestUnfolds(ps);
    RestUnfolds(us);
    SegMatchUnfolds(ps, us);
    if ps == [] {
      CompileNothing();
      MatchesNothing(Rest(us));
    } else {
      GoodTail(ps);
      CompileRest(ps);
      RestAtSlash(ps[1..]);
      var ts := Compile(Rest(ps[1..]));
      if us != [] {
        CleanTail(us);
      }
      if ps[0] == "**" {
        MatchesSuffix(ts, us);
        RestMatches(ps[1..], us);
        if us != [] {
          RestMatches(ps, us[1..]);
        }
      } else {
        MatchesRune(Lit('/'), NameTokens(ps[0]) + ts, Rest(us));
        if us != [] {
          RestMatches(ps[1..], us[1..]);
          NoSlashIn(ps[0]);
          NextSegment(ps[0], ts, us);
        }
      }
    }
  }

  lemma NextSegment(p: string, ts: seq<Token>, us: seq<string>)
    requires us != [] && CleanSegments(us) && '/' !in p && AtSlashOnly(ts)
    ensures Rest(us) != "" && TokenMatches(Lit('/'), Rest(us)[..1])
    ensures Matches(NameTokens(p) + ts, Rest(us)[1..]) <==> NameMatch(p, us[0]) && Matches(ts, Rest(us[1..]))
  {
    RestUnfolds(us);
    RestUnfolds(us[1..]);
    CleanTail(us);
    hide Rest, Matches, NameMatch, NameTokens, Join;
    assert Rest(us)[..1] == "/" && Rest(us)[1..] == us[0] + Rest(us[1..]);
    MatchesName(p, ts, us[0], Rest(us[1..]));
  }

  lemma NoSlashIn(p: string)
    requires GoodSegment(p)
    ensures '/' !in p && (p != "**" ==> !HasGlobstar(p))
  {
  }

  /** From the front the expression means what the segments say. */
  lemma {:induction false} JoinMatches(ps: seq<string>, us: seq<string>)
    requires ps != [] && us != [] && GoodSegments(ps) && CleanSegments(us)
    ensures Matches(Compile(Join(ps)), Join(us)) <==> SegMatch(ps, us)
    decreases |ps| + |us|
  {
    hide *;
    SegMatchUnfolds(ps, us);
    GoodTail(ps);
    CleanTail(us);
    RestUnfolds(ps);
    RestUnfolds(us);
    NoSlashIn(ps[0]);
    var rest := ps[1..];
    if ps[0] != "**" {
      FirstSegment(ps, us);
    } else {
      CompileFirstGlobstar(rest);
      assert ["**"] + rest == ps;
      if rest == [] {
        LastGlobstar(us);
        assert ps == ["**"];
      } else {
        MatchesDirs(Compile(Join(rest)), us);
        JoinMatches(rest, us);
        if 1 < |us| {
          JoinMatches(ps, us[1..]);
        } else {
          assert us[1..] == [];
          SegMatchUnfolds(ps, []);
          if SegMatch(rest, []) {
            AllGlobstars(rest, us);
          }
        }
      }
    }
  }

  lemma FirstSegment(ps: seq<string>, us: seq<string>)
    requires ps != [] && us != [] && GoodSegments(ps) && CleanSegments(us) && ps[0] != "**"
    ensures Matches(Compile(Join(ps)), Join(us)) <==> SegMatch(ps, us)
  {
    hide *;
    SegMatchUnfolds(ps, us);
    GoodTail(ps);
    CleanTail(us);
    RestUnfolds(ps);
    RestUnfolds(us);
    NoSlashIn(ps[0]);
    CleanHasNoSlash(us[0]);
    RestStartsAtSlash(ps[1..]);
    RestStartsAtSlash(us[1..]);
    CompileName(ps[0], Rest(ps[1..]));
    RestAtSlash(ps[1..]);
    MatchesName(ps[0], Compile(Rest(ps[1..])), us[0], Rest(us[1..]));
    RestMatches(ps[1..], us[1..]);
  }

  lemma CleanHasNoSlash(u: string)
    requires CleanSegment(u)
    ensures '/' !in u
  {
  }

  lemma RestStartsAtSlash(ps: seq<string>)
    ensures AtSlash(Rest(ps))
  {
  }

  lemma {:induction false} AnySegments(us: seq<string>)
    ensures SegMatch(["**"], us)
  {
    if us != [] {
      AnySegments(us[1..]);
    }
  }

  lemma LastGlobstar(us: seq<string>)
    requires CleanSegments(us)
    ensures Matches([DotStar], Join(us)) && SegMatch(["**"], us)
  {
    AnySegments(us);
    JoinHasNoNewline(us);
    var s := Join(us);
    hide SegMatch, Join;
    assert s[..|s|] == s && s[|s|..] == "";
    MatchesIntro(DotStar, [], s, |s|);
    assert [DotStar] + [] == [DotStar];
  }

  predicate IsAscii(s: string) {
    forall i :: 0 <= i < |s| ==> (s[i] as int) < 0x80
  }

  lemma {:induction false} AsciiBytes(s: string)
    requires IsAscii(s)
    ensures Utf8(s) == s
  {
    if s != "" {
      AsciiBytes(s[1..]);
      assert s == [s[0]] + s[1..];
    }
  }

  /**
   * A pattern of ASCII characters in which `**` only stands as a whole segment matches a clean relative path if and
   * only if the pattern's segments match the segments of the path.
   */
  lemma GlobMeansSegments(pattern: string, path: string)
    requires IsAscii(pattern) && GoodSegments(Split(pattern)) && CleanSegments(Split(path))
    ensures Matches(Compile(Utf8(pattern)), path) <==> SegMatch(Split(pattern), Split(path))
  {
    AsciiBytes(pattern);
    JoinSplit(pattern);
    JoinSplit(path);
    hide *;
    JoinMatches(Split(pattern), Split(path));
  }
}
