/** Exactly which patterns keep their meaning although literals are compiled byte by byte. */
module GlobBytes {
  import opened Glob
  import opened GlobSegments

  function MapUtf8(ps: seq<string>): (r: seq<string>)
    ensures |r| == |ps|
  {
    seq(|ps|, i requires 0 <= i < |ps| => Utf8(ps[i]))
  }

  predicate IsByte(c: char) {
    0x80 <= c as int
  }

  lemma Utf8RuneIs(c: char)
    ensures if IsByte(c) then 2 <= |Utf8Rune(c)| && forall i :: 0 <= i < |Utf8Rune(c)| ==> IsByte(Utf8Rune(c)[i])
            else Utf8Rune(c) == [c]
  {
  }

  lemma Utf8Unfolds(s: string)
    ensures Utf8("") == ""
    ensures s != "" ==> Utf8(s) == Utf8Rune(s[0]) + Utf8(s[1..])
  {
  }

  /** An ASCII rune is among the bytes if and only if it is in the text. */
  lemma {:induction false} AsciiKept(s: string, c: char)
    requires !IsByte(c)
    ensures c in Utf8(s) <==> c in s
  {
    hide Utf8, Utf8Rune;
    Utf8Unfolds(s);
    if s != "" {
      Utf8RuneIs(s[0]);
      AsciiKept(s[1..], c);
      assert c in s <==> c == s[0] || c in s[1..];
      assert c in Utf8(s) <==> c in Utf8Rune(s[0]) || c in Utf8(s[1..]);
    }
  }

  /** Code points read off bytes by the table in section 3 of RFC 3629. */
  function CodePoints(b: string): seq<int>
    decreases |b|
  {
    if b == "" then []
    else
      var n := b[0] as int;
      if n < 0x80 then [n] + CodePoints(b[1..])
      else if 0xC0 <= n < 0xE0 && 2 <= |b| then [64 * (n - 0xC0) + Low(b[1])] + CodePoints(b[2..])
      else if 0xE0 <= n < 0xF0 && 3 <= |b| then
        [4096 * (n - 0xE0) + 64 * Low(b[1]) + Low(b[2])] + CodePoints(b[3..])
      else if 0xF0 <= n && 4 <= |b| then
        [262144 * (n - 0xF0) + 4096 * Low(b[1]) + 64 * Low(b[2]) + Low(b[3])] + CodePoints(b[4..])
      else []
  }

  /** The six bits of a continuation byte. */
  function Low(c: char): int {
    c as int - 0x80
  }

  lemma Quotient4096(n: nat, q: nat, r: nat)
    requires n == 4096 * q + r && r < 4096
    ensures n / 4096 == q
  {
  }

  lemma Quotient262144(n: nat, q: nat, r: nat)
    requires n == 262144 * q + r && r < 262144
    ensures n / 262144 == q
  {
  }

  lemma Digits(n: nat)
    ensures n == 64 * (n / 64) + n % 64
    ensures n == 4096 * (n / 4096) + 64 * (n / 64 % 64) + n % 64
    ensures n == 262144 * (n / 262144) + 4096 * (n / 4096 % 64) + 64 * (n / 64 % 64) + n % 64
  {
    var q := n / 64;
    var p := q / 64;
    Quotient4096(n, p, 64 * (q % 64) + n % 64);
    Quotient262144(n, p / 64, 4096 * (p % 64) + 64 * (q % 64) + n % 64);
  }

  lemma RuneDecodes(c: char, rest: string)
    ensures CodePoints(Utf8Rune(c) + rest) == [c as int] + CodePoints(rest)
  {
    var u, n := Utf8Rune(c), c as int;
    assert (u + rest)[|u|..] == rest;
    Digits(n);
    LowIs(n);
    LowIs(n / 64);
    LowIs(n / 4096);
    hide CodePoints, Continuation, Low;
    Unfolds(u + rest);
  }

  lemma LowIs(n: nat)
    ensures Low(Continuation(n)) == n % 64 && 0x80 <= Continuation(n) as int < 0xC0
  {
  }

  lemma Unfolds(b: string)
    requires b != ""
    ensures var n := b[0] as int;
      && (n < 0x80 ==> CodePoints(b) == [n] + CodePoints(b[1..]))
      && (0xC0 <= n < 0xE0 && 2 <= |b| ==> CodePoints(b) == [64 * (n - 0xC0) + Low(b[1])] + CodePoints(b[2..]))
      && (0xE0 <= n < 0xF0 && 3 <= |b| ==>
        CodePoints(b) == [4096 * (n - 0xE0) + 64 * Low(b[1]) + Low(b[2])] + CodePoints(b[3..]))
      && (0xF0 <= n && 4 <= |b| ==>
        CodePoints(b) == [262144 * (n - 0xF0) + 4096 * Low(b[1]) + 64 * Low(b[2]) + Low(b[3])] + CodePoints(b[4..]))
  {
  }

  /** The bytes of a pattern are its UTF-8 encoding. */
  lemma {:induction false} Utf8Decodes(s: string)
    ensures CodePoints(Utf8(s)) == seq(|s|, i requires 0 <= i < |s| => s[i] as int)
  {
    hide CodePoints, Utf8Rune;
    Utf8Unfolds(s);
    if s == "" {
      NothingDecodes();
    } else {
      Utf8Decodes(s[1..]);
      RuneDecodes(s[0], Utf8(s[1..]));
    }
  }

  lemma NothingDecodes()
    ensures CodePoints("") == []
  {
  }

  // Segments

  lemma {:induction false} SplitPrefix(a: string, s: string)
    requires '/' !in a
    ensures Split(a + s) == [a + Split(s)[0]] + Split(s)[1..]
  {
    if a == "" {
      assert a + s == s && "" + Split(s)[0] == Split(s)[0];
    } else {
      assert (a + s)[1..] == a[1..] + s;
      SplitPrefix(a[1..], s);
      assert [a[0]] + (a[1..] + Split(s)[0]) == a + Split(s)[0];
    }
  }

  lemma MapUtf8Cons(s: string, ps: seq<string>)
    ensures MapUtf8([s] + ps) == [Utf8(s)] + MapUtf8(ps)
  {
    hide Utf8;
  }

  /** The segments of the bytes are the bytes of the segments. */
  lemma {:induction false} SplitUtf8(p: string)
    ensures Split(Utf8(p)) == MapUtf8(Split(p))
  {
    hide Utf8, Utf8Rune, MapUtf8;
    Utf8Unfolds(p);
    if p == "" {
      MapUtf8Cons("", []);
      NothingMapped();
      assert [""] + [] == [""];
    } else {
      var rest := Split(p[1..]);
      SplitUtf8(p[1..]);
      Utf8RuneIs(p[0]);
      if p[0] == '/' {
        MapUtf8Cons("", rest);
        assert Utf8(p)[1..] == Utf8(p[1..]);
        Utf8Unfolds("");
      } else {
        SplitPrefix(Utf8Rune(p[0]), Utf8(p[1..]));
        MapUtf8Cons(rest[0], rest[1..]);
        assert [rest[0]] + rest[1..] == rest;
        Utf8Unfolds([p[0]] + rest[0]);
        assert ([p[0]] + rest[0])[1..] == rest[0];
        MapUtf8Cons([p[0]] + rest[0], rest[1..]);
      }
    }
  }

  lemma NothingMapped()
    ensures MapUtf8([]) == []
  {
  }

  lemma {:induction false} NoGlobstarInBytes(s: string)
    requires !HasGlobstar(s)
    ensures !HasGlobstar(Utf8(s))
  {
    hide Utf8, Utf8Rune;
    Utf8Unfolds(s);
    if s != "" {
      Utf8RuneIs(s[0]);
      TailHasNoGlobstar(s);
      NoGlobstarInBytes(s[1..]);
      Utf8Unfolds(s[1..]);
      if s[1..] != "" {
        Utf8RuneIs(s[1]);
      }
      NoGlobstarJoined(Utf8Rune(s[0]), Utf8(s[1..]), s);
    }
  }

  lemma TailHasNoGlobstar(s: string)
    requires s != "" && !HasGlobstar(s)
    ensures !HasGlobstar(s[1..])
  {
    assert forall i :: 0 <= i < |s| - 2 ==> s[1..][i] == s[i + 1];
  }

  lemma NoGlobstarJoined(a: string, b: string, s: string)
    requires !HasGlobstar(b) && a != "" && s != ""
    requires if IsByte(s[0]) then forall i :: 0 <= i < |a| ==> IsByte(a[i]) else a == [s[0]]
    requires !HasGlobstar(s) && (b != "" && b[0] == '*' ==> 1 < |s| && s[1] == '*')
    ensures !HasGlobstar(a + b)
  {
    var t := a + b;
    forall i | 0 <= i < |t| - 1
      ensures !(t[i] == '*' && t[i + 1] == '*')
    {
      if |a| <= i {
        assert t[i] == b[i - |a|] && t[i + 1] == b[i - |a| + 1];
      } else {
        assert t[i] == a[i];
        assert i == |a| - 1 ==> t[i + 1] == b[0];
      }
    }
  }

  lemma GoodInBytes(p: string)
    requires GoodSegment(p)
    ensures GoodSegment(Utf8(p)) && (Utf8(p) == "**" <==> p == "**")
  {
    AsciiKept(p, '/');
    if p == "**" {
      AsciiBytes(p);
    } else {
      NoGlobstarInBytes(p);
      assert "**"[0] == '*' && "**"[1] == '*' && HasGlobstar("**");
    }
  }

  lemma AllGoodInBytes(ps: seq<string>)
    requires GoodSegments(ps)
    ensures GoodSegments(MapUtf8(ps))
  {
    hide GoodSegment, Utf8;
    forall i | 0 <= i < |ps|
      ensures GoodSegment(MapUtf8(ps)[i])
    {
      GoodInBytes(ps[i]);
    }
  }

  /** What a compiled pattern means, whatever its runes: its segments, each as its bytes. */
  lemma GlobMeansBytes(pattern: string, path: string)
    requires GoodSegments(Split(pattern)) && CleanSegments(Split(path))
    ensures Matches(Compile(Utf8(pattern)), path) <==> SegMatch(MapUtf8(Split(pattern)), Split(path))
  {
    SplitUtf8(pattern);
    AllGoodInBytes(Split(pattern));
    JoinSplit(Utf8(pattern));
    JoinSplit(path);
    hide *;
    JoinMatches(MapUtf8(Split(pattern)), Split(path));
  }

  // Patterns that match nothing

  /** Some segment is empty or holds a newline; no segment of a clean path does. */
  ghost predicate Dead(ps: seq<string>) {
    exists i :: 0 <= i < |ps| && DeadSegment(ps[i])
  }

  predicate DeadSegment(p: string) {
    p == "" || '\n' in p
  }

  lemma {:induction false} NewlineMustMatch(p: string, u: string)
    requires '\n' in p && NameMatch(p, u)
    ensures '\n' in u
    decreases |p| + |u|
  {
    if p[0] == '*' {
      if NameMatch(p[1..], u) {
        NewlineMustMatch(p[1..], u);
      } else {
        NewlineMustMatch(p, u[1..]);
      }
    } else if p[0] != '\n' {
      NewlineMustMatch(p[1..], u[1..]);
    }
  }

  lemma {:induction false} DeadMatchesNothing(ps: seq<string>, us: seq<string>)
    requires Dead(ps) && CleanSegments(us)
    ensures !SegMatch(ps, us)
    decreases |ps| + |us|
  {
    hide NameMatch, SegMatch;
    SegMatchUnfolds(ps, us);
    var i :| 0 <= i < |ps| && DeadSegment(ps[i]);
    assert 0 < i ==> ps[1..][i - 1] == ps[i];
    assert 0 < i ==> Dead(ps[1..]);
    if us != [] {
      CleanTail(us);
    }
    if ps[0] == "**" {
      DeadMatchesNothing(ps[1..], us);
      if us != [] {
        DeadMatchesNothing(ps, us[1..]);
      }
    } else if us != [] {
      if 0 < i {
        DeadMatchesNothing(ps[1..], us[1..]);
      } else if NameMatch(ps[0], us[0]) {
        DeadNameMatches(ps[0], us[0]);
      }
    }
  }

  lemma DeadNameMatches(p: string, u: string)
    requires DeadSegment(p) && NameMatch(p, u)
    ensures !CleanSegment(u)
  {
    if p != "" {
      NewlineMustMatch(p, u);
    }
  }

  lemma DeadInBytes(ps: seq<string>)
    requires Dead(ps)
    ensures Dead(MapUtf8(ps))
  {
    var i :| 0 <= i < |ps| && DeadSegment(ps[i]);
    AsciiKept(ps[i], '\n');
    Utf8Unfolds(ps[i]);
    hide Utf8;
    assert DeadSegment(MapUtf8(ps)[i]);
  }

  // A path that tells the bytes from the runes

  /** How many runes a name needs: all but the stars. */
  function MinLength(p: string): nat {
    if p == "" then 0 else (if p[0] == '*' then 0 else 1) + MinLength(p[1..])
  }

  lemma {:induction false} MatchNeedsLength(p: string, u: string)
    requires NameMatch(p, u)
    ensures MinLength(p) <= |u|
    decreases |p| + |u|
  {
    if p != "" {
      if p[0] == '*' {
        if NameMatch(p[1..], u) {
          MatchNeedsLength(p[1..], u);
        } else {
          MatchNeedsLength(p, u[1..]);
        }
      } else {
        MatchNeedsLength(p[1..], u[1..]);
      }
    }
  }

  lemma {:induction false} MinLengthJoined(a: string, b: string)
    ensures MinLength(a + b) == MinLength(a) + MinLength(b)
  {
    if a == "" {
      assert a + b == b;
    } else {
      assert (a + b)[1..] == a[1..] + b;
      MinLengthJoined(a[1..], b);
    }
  }

  lemma {:induction false} MinLengthOfBytes(a: string)
    requires forall i :: 0 <= i < |a| ==> IsByte(a[i])
    ensures MinLength(a) == |a|
  {
    if a != "" {
      MinLengthOfBytes(a[1..]);
    }
  }

  /** The bytes of a name need as many runes as the name, and more if it is not ASCII. */
  lemma {:induction false} BytesNeedMore(p: string)
    ensures MinLength(p) <= MinLength(Utf8(p))
    ensures !IsAscii(p) ==> MinLength(p) < MinLength(Utf8(p))
  {
    hide Utf8, Utf8Rune;
    Utf8Unfolds(p);
    if p != "" {
      var c := Utf8Rune(p[0]);
      Utf8RuneIs(p[0]);
      BytesNeedMore(p[1..]);
      MinLengthJoined(c, Utf8(p[1..]));
      AsciiTail(p);
      assert c == [p[0]] ==> MinLength(c) == (if p[0] == '*' then 0 else 1) + MinLength("") by {
        assert c == [p[0]] ==> c[1..] == "";
      }
      if IsByte(p[0]) {
        MinLengthOfBytes(c);
      }
    }
  }

  lemma AsciiTail(p: string)
    requires p != ""
    ensures IsAscii(p) <==> !IsByte(p[0]) && IsAscii(p[1..])
  {
    assert forall i :: 0 <= i < |p| - 1 ==> p[1..][i] == p[i + 1];
    if !IsByte(p[0]) && IsAscii(p[1..]) {
      forall i | 0 <= i < |p|
        ensures (p[i] as int) < 0x80
      {
        assert 0 < i ==> p[1..][i - 1] == p[i];
      }
    }
  }

  /** A name without its stars, with a letter for every `?`. */
  function Filled(p: string): string {
    if p == "" then "" else (if p[0] == '*' then "" else if p[0] == '?' then "a" else [p[0]]) + Filled(p[1..])
  }

  function Witness(p: string): string {
    if Filled(p) == "" then "a" else Filled(p)
  }

  lemma {:induction false} FilledMatches(p: string)
    ensures NameMatch(p, Filled(p)) && |Filled(p)| == MinLength(p)
    ensures forall c :: c in Filled(p) ==> c == 'a' || c in p
  {
    if p != "" {
      FilledMatches(p[1..]);
      if p[0] == '*' {
        assert Filled(p) == Filled(p[1..]);
      } else {
        assert Filled(p)[1..] == Filled(p[1..]);
      }
    }
  }

  lemma {:induction false} StarsMatchLetter(p: string)
    requires p != "" && Filled(p) == ""
    ensures NameMatch(p, "a")
  {
    assert p[0] == '*' && Filled(p[1..]) == "";
    FilledMatches(p);
    assert "a"[1..] == "";
    assert NameMatch(p, "");
  }

  lemma WitnessMatches(p: string)
    requires GoodSegment(p) && !DeadSegment(p)
    ensures NameMatch(p, Witness(p)) && CleanSegment(Witness(p))
    ensures |Witness(p)| == if MinLength(p) == 0 then 1 else MinLength(p)
  {
    FilledMatches(p);
    if Filled(p) == "" {
      StarsMatchLetter(p);
    }
    hide Filled, NameMatch, MinLength, HasGlobstar;
  }

  /** One segment for every name, none for `**`. */
  function Witnesses(ps: seq<string>): seq<string> {
    if ps == [] then [] else (if ps[0] == "**" then [] else [Witness(ps[0])]) + Witnesses(ps[1..])
  }

  ghost predicate Alive(ps: seq<string>) {
    forall i :: 0 <= i < |ps| ==> GoodSegment(ps[i]) && !DeadSegment(ps[i])
  }

  lemma AliveTail(ps: seq<string>)
    requires ps != [] && Alive(ps)
    ensures GoodSegment(ps[0]) && !DeadSegment(ps[0]) && Alive(ps[1..])
  {
    hide GoodSegment, DeadSegment;
  }

  lemma {:induction false} WitnessesMatch(ps: seq<string>)
    requires Alive(ps)
    ensures SegMatch(ps, Witnesses(ps)) && CleanSegments(Witnesses(ps))
  {
    hide NameMatch, SegMatch, Witness, CleanSegment, Alive;
    SegMatchUnfolds(ps, Witnesses(ps));
    if ps != [] {
      AliveTail(ps);
      WitnessesMatch(ps[1..]);
      if ps[0] == "**" {
        assert Witnesses(ps) == Witnesses(ps[1..]);
      } else {
        WitnessMatches(ps[0]);
        assert Witnesses(ps)[1..] == Witnesses(ps[1..]);
      }
    }
  }

  function Names(ps: seq<string>): nat {
    if ps == [] then 0 else (if ps[0] == "**" then 0 else 1) + Names(ps[1..])
  }

  /** Each name against the segment at its place, and nothing for `**`. */
  predicate NamesMatch(ps: seq<string>, us: seq<string>) {
    if ps == [] then us == []
    else if ps[0] == "**" then NamesMatch(ps[1..], us)
    else us != [] && NameMatch(ps[0], us[0]) && NamesMatch(ps[1..], us[1..])
  }

  /** With one segment for each name, `**` has none to take. */
  lemma {:induction false} TightMatch(ps: seq<string>, us: seq<string>)
    requires SegMatch(ps, us)
    ensures Names(ps) <= |us| && (|us| == Names(ps) ==> NamesMatch(ps, us))
    decreases |ps| + |us|
  {
    hide NameMatch;
    if ps != [] {
      if ps[0] != "**" {
        TightMatch(ps[1..], us[1..]);
      } else if SegMatch(ps[1..], us) {
        TightMatch(ps[1..], us);
      } else {
        TightMatch(ps, us[1..]);
      }
    }
  }

  lemma {:induction false} NamesOfBytes(ps: seq<string>)
    requires GoodSegments(ps)
    ensures Names(MapUtf8(ps)) == Names(ps) == |Witnesses(ps)|
  {
    hide Utf8, GoodSegment, Witness;
    if ps != [] {
      GoodTail(ps);
      GoodInBytes(ps[0]);
      assert MapUtf8(ps)[1..] == MapUtf8(ps[1..]);
      NamesOfBytes(ps[1..]);
    }
  }

  ghost predicate AllAscii(ps: seq<string>) {
    forall i :: 0 <= i < |ps| ==> IsAscii(ps[i])
  }

  lemma NameTellsBytes(p: string)
    requires GoodSegment(p) && !DeadSegment(p) && NameMatch(Utf8(p), Witness(p))
    ensures IsAscii(p)
  {
    WitnessMatches(p);
    MatchNeedsLength(Utf8(p), Witness(p));
    BytesNeedMore(p);
    hide Utf8, Witness, NameMatch;
    if MinLength(p) == 0 {
      OnlyStars(p);
    }
  }

  lemma {:induction false} OnlyStars(p: string)
    requires MinLength(p) == 0
    ensures IsAscii(p)
  {
    if p != "" {
      OnlyStars(p[1..]);
      AsciiTail(p);
    }
  }

  /** The witnesses match the bytes of ASCII names only. */
  lemma {:induction false} WitnessesTell(ps: seq<string>)
    requires Alive(ps) && NamesMatch(MapUtf8(ps), Witnesses(ps))
    ensures AllAscii(ps)
  {
    hide Utf8, GoodSegment, DeadSegment, Witness, NameMatch, IsAscii;
    if ps != [] {
      AliveTail(ps);
      GoodInBytes(ps[0]);
      assert MapUtf8(ps)[1..] == MapUtf8(ps[1..]) && MapUtf8(ps)[0] == Utf8(ps[0]);
      if ps[0] == "**" {
        assert Witnesses(ps) == Witnesses(ps[1..]);
        assert IsAscii(ps[0]) by {
          GlobstarIsAscii(ps[0]);
        }
      } else {
        assert Witnesses(ps)[1..] == Witnesses(ps[1..]);
        NameTellsBytes(ps[0]);
      }
      WitnessesTell(ps[1..]);
      assert forall i :: 0 < i < |ps| ==> ps[i] == ps[1..][i - 1];
    }
  }

  lemma GlobstarIsAscii(p: string)
    requires p == "**"
    ensures IsAscii(p)
  {
  }

  lemma {:induction false} AsciiBySegments(p: string)
    requires AllAscii(Split(p))
    ensures IsAscii(p)
  {
    if p != "" {
      var rest := Split(p[1..]);
      AsciiTail(p);
      hide IsAscii;
      if p[0] == '/' {
        assert Split(p)[1..] == rest;
        assert AllAscii(rest);
      } else {
        var first := [p[0]] + rest[0];
        assert Split(p) == [first] + rest[1..];
        assert IsAscii(first) by {
          assert Split(p)[0] == first;
        }
        assert first[1..] == rest[0];
        AsciiTail(first);
        forall i | 0 <= i < |rest|
          ensures IsAscii(rest[i])
        {
          assert 0 < i ==> Split(p)[i] == rest[i];
        }
      }
      AsciiBySegments(p[1..]);
    }
  }

  lemma {:induction false} SplitRest(us: seq<string>)
    requires CleanSegments(us)
    ensures Split(Rest(us)) == [""] + us
  {
    if us != [] {
      CleanTail(us);
      RestUnfolds(us);
      hide Rest, Join;
      SplitRest(us[1..]);
      SplitPrefix(us[0], Rest(us[1..]));
      assert Rest(us)[1..] == us[0] + Rest(us[1..]);
      assert ([""] + us[1..])[0] == "" && ([""] + us[1..])[1..] == us[1..] && us[0] + "" == us[0];
      assert [us[0]] + us[1..] == us;
    }
  }

  lemma SplitJoin(us: seq<string>)
    requires us != [] && CleanSegments(us)
    ensures Split(Join(us)) == us
  {
    CleanTail(us);
    SplitRest(us[1..]);
    SplitPrefix(us[0], Rest(us[1..]));
    assert ([""] + us[1..])[1..] == us[1..] && us[0] + "" == us[0];
    assert [us[0]] + us[1..] == us;
  }

  // The exact condition

  /** On this path the compiled pattern says what its segments say. */
  ghost predicate Agrees(pattern: string, path: string) {
    Matches(Compile(Utf8(pattern)), path) <==> SegMatch(Split(pattern), Split(path))
  }

  ghost predicate KeepsMeaning(pattern: string) {
    forall path :: CleanSegments(Split(path)) ==> Agrees(pattern, path)
  }

  /** The path made of the pattern's own literals tells a pattern outside ASCII from its bytes. */
  lemma WitnessDisagrees(pattern: string)
    requires GoodSegments(Split(pattern)) && !IsAscii(pattern) && !Dead(Split(pattern))
    ensures var path := Join(Witnesses(Split(pattern))); CleanSegments(Split(path)) && !Agrees(pattern, path)
  {
    var ps := Split(pattern);
    var us := Witnesses(ps);
    assert Alive(ps);
    WitnessesMatch(ps);
    NamesOfBytes(ps);
    if us == [] {
      NoNames(ps);
      AsciiBySegments(pattern);
    }
    SplitJoin(us);
    var path := Join(us);
    GlobMeansBytes(pattern, path);
    hide Split, Join, Witnesses, SegMatch, Matches, Compile, IsAscii, NamesMatch, Names, Utf8, MapUtf8;
    if SegMatch(MapUtf8(ps), us) {
      TightMatch(MapUtf8(ps), us);
      WitnessesTell(ps);
      AsciiBySegments(pattern);
    }
  }

  lemma {:induction false} NoNames(ps: seq<string>)
    requires Names(ps) == 0
    ensures AllAscii(ps)
  {
    if ps != [] {
      NoNames(ps[1..]);
      assert forall i :: 0 < i < |ps| ==> ps[i] == ps[1..][i - 1];
    }
  }

  /**
   * A pattern in which `**` only stands as a whole segment means on every clean relative path what its segments say if
   * and only if it is ASCII, or has a segment that is empty or holds a newline and so matches no such path at all.
   */
  lemma KeepsMeaningIff(pattern: string)
    requires GoodSegments(Split(pattern))
    ensures KeepsMeaning(pattern) <==> IsAscii(pattern) || Dead(Split(pattern))
  {
    hide Split, Matches, Compile, SegMatch, IsAscii, GoodSegments, CleanSegments, Utf8, Dead;
    if IsAscii(pattern) {
      forall path | CleanSegments(Split(path))
        ensures Agrees(pattern, path)
      {
        GlobMeansSegments(pattern, path);
      }
    } else if Dead(Split(pattern)) {
      forall path | CleanSegments(Split(path))
        ensures Agrees(pattern, path)
      {
        GlobMeansBytes(pattern, path);
        DeadInBytes(Split(pattern));
        DeadMatchesNothing(Split(pattern), Split(path));
        DeadMatchesNothing(MapUtf8(Split(pattern)), Split(path));
      }
    } else {
      WitnessDisagrees(pattern);
    }
  }

  /** A pattern that is one rune outside ASCII does not match itself. */
  lemma NonAsciiIsBroken(e: string)
    requires |e| == 1 && !IsAscii(e)
    ensures !Matches(Compile(Utf8(e)), e) && SegMatch(Split(e), Split(e))
  {
    var none: string := "";
    assert e == e + none && Split(none) == [none] && '/' !in e;
    SplitPrefix(e, none);
    assert Split(e) == [e];
    assert GoodSegment(e) && !DeadSegment(e);
    assert e[1..] == "" && Filled(e) == e && Witnesses([e]) == [e];
    assert Join([e]) == e;
    hide Filled, Split, Witnesses, Join;
    WitnessesMatch([e]);
    WitnessDisagrees(e);
  }
}
