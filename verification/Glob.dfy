/** Path globs compiled to regular expressions. */
module Glob {
  import opened Basics
  import opened Text

  /** The pieces a compiled glob is made of. */
  datatype Token =
    | Lit(c: char)
    | Star      // [^/]*
    | One       // [^/]
    | DotStar   // .*
    | OptDirs   // (?:.*/)?
    | OptSuffix // (?:/.*)?

  datatype Compiled = Regexp(expr: string) | EmptyPattern

  predicate HasPrefix(s: string, prefix: string) {
    |prefix| <= |s| && s[..|prefix|] == prefix
  }

  /** The bytes of a Go string, each as the rune that string(b) makes of it. */
  function Utf8(s: string): string {
    if s == "" then "" else Utf8Rune(s[0]) + Utf8(s[1..])
  }

  function Utf8Rune(c: char): string {
    var n := c as int;
    if n < 0x80 then [c]
    else if n < 0x800 then [(0xC0 + n / 64) as char, Continuation(n)]
    else if n < 0x10000 then [(0xE0 + n / 4096) as char, Continuation(n / 64), Continuation(n)]
    else [(0xF0 + n / 262144) as char, Continuation(n / 4096), Continuation(n / 64), Continuation(n)]
  }

  function Continuation(n: nat): char {
    (0x80 + n % 64) as char
  }

  predicate IsSpecial(c: char) {
    || c == '\\' || c == '.' || c == '+' || c == '*' || c == '?' || c == '(' || c == ')' || c == '|'
    || c == '[' || c == ']' || c == '{' || c == '}' || c == '^' || c == '$'
  }

  function QuoteMeta(c: char): string {
    if IsSpecial(c) then ['\\', c] else [c]
  }

  function Piece(t: Token): string {
    match t
    case Lit(c) => QuoteMeta(c)
    case Star => "[^/]*"
    case One => "[^/]"
    case DotStar => ".*"
    case OptDirs => "(?:.*/)?"
    case OptSuffix => "(?:/.*)?"
  }

  function Render(ts: seq<Token>): string {
    if ts == [] then "" else Piece(ts[0]) + Render(ts[1..])
  }

  /** How many bytes of the pattern the next token takes, and which token it is. */
  function Next(p: string): (r: (nat, Token))
    requires p != ""
    ensures 0 < r.0 <= |p|
  {
    if HasPrefix(p, "**/") then (3, OptDirs)
    else if HasPrefix(p, "/**") then (3, OptSuffix)
    else if HasPrefix(p, "**") then (2, DotStar)
    else if p[0] == '*' then (1, Star)
    else if p[0] == '?' then (1, One)
    else (1, Lit(p[0]))
  }

  function Compile(p: string): seq<Token>
    decreases |p|
  {
    if p == "" then [] else [Next(p).1] + Compile(p[Next(p).0..])
  }

  method WildcardPatternToRegexp(raw: string) returns (r: Compiled)
    ensures r == if TrimSpace(raw) == "" then EmptyPattern
                 else Regexp("^" + Render(Compile(Utf8(TrimSpace(raw)))) + "$")
  {
    hide TrimSpace, Utf8, Piece, Next;
    var trimmed := TrimSpace(raw);
    if trimmed == "" {
      return EmptyPattern;
    }
    var pattern := Utf8(trimmed);
    var b := "^";
    var i := 0;
    assert pattern[0..] == pattern;
    while i < |pattern|
      invariant 0 <= i <= |pattern|
      invariant "^" + Render(Compile(pattern)) == b + Render(Compile(pattern[i..]))
    {
      var piece, width := NextPiece(pattern, i);
      CompileStep(pattern, i, b);
      b := b + piece;
      i := i + width;
    }
    assert pattern[i..] == "" && b + "" == b;
    return Regexp(b + "$");
  }

  lemma CompileStep(p: string, i: nat, b: string)
    requires i < |p|
    ensures var n := Next(p[i..]);
      b + Render(Compile(p[i..])) == (b + Piece(n.1)) + Render(Compile(p[i + n.0..]))
  {
    hide Next, Piece;
    var n := Next(p[i..]);
    assert p[i..][n.0..] == p[i + n.0..];
    assert Compile(p[i..]) == [n.1] + Compile(p[i + n.0..]);
    hide Compile;
  }

  method NextPiece(pattern: string, i: nat) returns (piece: string, width: nat)
    requires i < |pattern|
    ensures piece == Piece(Next(pattern[i..]).1) && width == Next(pattern[i..]).0
  {
    if HasPrefix(pattern[i..], "**/") {
      piece, width := "(?:.*/)?", 3;
    } else if HasPrefix(pattern[i..], "/**") {
      piece, width := "(?:/.*)?", 3;
    } else if HasPrefix(pattern[i..], "**") {
      piece, width := ".*", 2;
    } else if pattern[i] == '*' {
      piece, width := "[^/]*", 1;
    } else if pattern[i] == '?' {
      piece, width := "[^/]", 1;
    } else {
      piece, width := QuoteMeta(pattern[i]), 1;
    }
  }

  /** The texts one piece of an expression matches; '.' does not match a newline. */
  predicate TokenMatches(t: Token, u: string) {
    match t
    case Lit(c) => u == [c]
    case Star => '/' !in u
    case One => |u| == 1 && u[0] != '/'
    case DotStar => '\n' !in u
    case OptDirs => u == "" || (u[|u| - 1] == '/' && '\n' !in u[..|u| - 1])
    case OptSuffix => u == "" || (u[0] == '/' && '\n' !in u[1..])
  }

  /** The expression matches the whole text. */
  predicate Matches(ts: seq<Token>, s: string)
    decreases |ts|
  {
    if ts == [] then s == ""
    else exists k :: 0 <= k <= |s| && TokenMatches(ts[0], s[..k]) && Matches(ts[1..], s[k..])
  }

  /** The characters that stand for themselves only behind a backslash. */
  const METACHARACTERS: string := "\\.+*?()|[]{}^$"

  function Cons(t: Token, rest: Option<seq<Token>>): Option<seq<Token>> {
    if rest.Some? then Some([t] + rest.value) else None
  }

  /**
   * The pieces of an expression, read as RE2 does: a metacharacter behind a backslash is literal, and so is any other
   * character that stands alone; all else must be one of the five operators.
   */
  function Read(r: string): Option<seq<Token>>
    decreases |r|
  {
    if r == "" then Some([])
    else if r[0] == '\\' then
      if 1 < |r| && r[1] in METACHARACTERS then Cons(Lit(r[1]), Read(r[2..])) else None
    else if HasPrefix(r, "[^/]*") then Cons(Star, Read(r[5..]))
    else if HasPrefix(r, "[^/]") then Cons(One, Read(r[4..]))
    else if HasPrefix(r, ".*") then Cons(DotStar, Read(r[2..]))
    else if HasPrefix(r, "(?:.*/)?") then Cons(OptDirs, Read(r[8..]))
    else if HasPrefix(r, "(?:/.*)?") then Cons(OptSuffix, Read(r[8..]))
    else if r[0] in METACHARACTERS then None
    else Cons(Lit(r[0]), Read(r[1..]))
  }

  lemma SpecialIsMeta(c: char)
    ensures IsSpecial(c) <==> c in METACHARACTERS
  {
  }

  lemma NoLeadingStar(ts: seq<Token>)
    ensures Render(ts) == "" || Render(ts)[0] != '*'
  {
  }

  lemma PrefixOf(a: string, rest: string)
    ensures HasPrefix(a + rest, a) && (a + rest)[|a|..] == rest
  {
  }

  lemma NotPrefix(r: string, a: string, i: nat)
    requires i < |a| && (i < |r| ==> r[i] != a[i])
    ensures !HasPrefix(r, a)
  {
  }

  /** Which operator an expression starts with depends on its first rune. */
  lemma FirstRune(r: string)
    requires r != ""
    ensures r[0] != '[' ==> !HasPrefix(r, "[^/]*") && !HasPrefix(r, "[^/]")
    ensures r[0] != '.' ==> !HasPrefix(r, ".*")
    ensures r[0] != '(' ==> !HasPrefix(r, "(?:.*/)?") && !HasPrefix(r, "(?:/.*)?")
  {
  }

  lemma ReadLit(c: char, rest: string)
    ensures Read(QuoteMeta(c) + rest) == Cons(Lit(c), Read(rest))
  {
    var r := QuoteMeta(c) + rest;
    PrefixOf(QuoteMeta(c), rest);
    FirstRune(r);
    SpecialIsMeta(c);
    hide HasPrefix;
    assert r[0] == (if IsSpecial(c) then '\\' else c);
  }

  lemma ReadOne(rest: string)
    requires rest == "" || rest[0] != '*'
    ensures Read("[^/]" + rest) == Cons(One, Read(rest))
  {
    var r := "[^/]" + rest;
    PrefixOf("[^/]", rest);
    NotPrefix(r, "[^/]*", 4);
    hide HasPrefix;
    assert r[0] == '[';
  }

  lemma ReadStar(rest: string)
    ensures Read("[^/]*" + rest) == Cons(Star, Read(rest))
  {
  }

  lemma ReadDots(t: Token, rest: string)
    requires t.DotStar? || t.OptDirs? || t.OptSuffix?
    ensures Read(Piece(t) + rest) == Cons(t, Read(rest))
  {
    var r := Piece(t) + rest;
    PrefixOf(Piece(t), rest);
    FirstRune(r);
    if t.OptSuffix? {
      NotPrefix(r, "(?:.*/)?", 3);
    }
    hide HasPrefix;
    assert r[0] == if t.DotStar? then '.' else '(';
  }

  /** The expression is valid, and unambiguous: quoting keeps literal characters apart from operators, and only them. */
  lemma {:induction false} ReadRender(ts: seq<Token>)
    ensures Read(Render(ts)) == Some(ts)
  {
    assert Read("") == Some([]);
    hide Read, IsSpecial;
    if ts != [] {
      var rest := Render(ts[1..]);
      ReadRender(ts[1..]);
      NoLeadingStar(ts[1..]);
      assert [ts[0]] + ts[1..] == ts;
      RenderCons(ts[0], ts[1..]);
      hide Render;
      match ts[0]
      case Lit(c) => ReadLit(c, rest);
      case Star => ReadStar(rest);
      case One => ReadOne(rest);
      case _ => ReadDots(ts[0], rest);
    }
  }

  /** A pattern without metacharacters is its own expression. */
  lemma {:induction false} PlainIsItself(p: string)
    requires forall i :: 0 <= i < |p| ==> p[i] !in METACHARACTERS
    ensures Render(Compile(p)) == p
  {
    if p != "" {
      SpecialIsMeta(p[0]);
      PlainNext(p);
      hide IsSpecial, Next;
      PlainIsItself(p[1..]);
      RenderCons(Lit(p[0]), Compile(p[1..]));
    }
  }

  lemma RenderCons(t: Token, ts: seq<Token>)
    ensures Render([t] + ts) == Piece(t) + Render(ts)
  {
  }

  lemma PlainNext(p: string)
    requires p != "" && forall i :: 0 <= i < |p| ==> p[i] !in METACHARACTERS
    ensures Next(p) == (1, Lit(p[0]))
  {
    assert '*' in METACHARACTERS && '?' in METACHARACTERS;
    assert forall a :: HasPrefix(p, a) ==> forall i :: 0 <= i < |a| ==> a[i] == p[i];
    assert "**/"[0] == "**"[0] == "/**"[1] == '*';
  }
}
