/** Where the splitter cuts, told from the runes of the text alone: separators, fences and lengths. */
module SplitCuts {
  import opened Basics
  import opened Text
  import opened SplitScan
  import opened Splitter

  /** e is the last newline of t[..limit], among its last 200 runes and not at the front. */
  ghost predicate LastNewline(t: string, limit: int, e: int) {
    && 0 < e < limit <= |t| && limit - 200 <= e && t[e] == '\n'
    && forall i :: e < i < limit ==> t[i] != '\n'
  }

  ghost predicate NoNewline(t: string, limit: int) {
    forall i :: 0 < i < limit <= |t| && limit - 200 <= i ==> t[i] != '\n'
  }

  /** The same for a space or tab among the last 100 runes. */
  ghost predicate LastSpace(t: string, limit: int, e: int) {
    && 0 < e < limit <= |t| && limit - 100 <= e && (t[e] == ' ' || t[e] == '\t')
    && forall i :: e < i < limit ==> t[i] != ' ' && t[i] != '\t'
  }

  ghost predicate NoSpace(t: string, limit: int) {
    forall i :: 0 < i < limit <= |t| && limit - 100 <= i ==> t[i] != ' ' && t[i] != '\t'
  }

  /** The text breaks at e in front of limit: at a newline, and only without one at a space. */
  ghost predicate BreaksAt(t: string, limit: int, e: int) {
    LastNewline(t, limit, e) || (NoNewline(t, limit) && LastSpace(t, limit, e))
  }

  ghost predicate Unbroken(t: string, limit: int) {
    NoNewline(t, limit) && NoSpace(t, limit)
  }

  predicate Backticks(s: string, i: int) {
    0 <= i && i + 3 <= |s| && s[i..i + 3] == "```"
  }

  /** f lists the fences of s: apart from each other, and each three backticks overlap one of them from its start on. */
  ghost predicate AreFences(s: string, f: seq<int>) {
    && (forall k :: 0 <= k < |f| ==> Backticks(s, f[k]))
    && Apart(f)
    && (forall i :: Backticks(s, i) ==> Covered(f, i))
  }

  ghost predicate Apart(f: seq<int>) {
    forall k, l :: 0 <= k < l < |f| ==> f[k] + 3 <= f[l]
  }

  ghost predicate Covered(f: seq<int>, i: int) {
    exists k :: 0 <= k < |f| && f[k] <= i < f[k] + 3
  }

  /** The fence at u opens a block that t[..m] does not close. */
  ghost predicate OpenAt(t: string, m: nat, u: int)
    requires m <= |t|
  {
    exists f :: AreFences(t[..m], f) && |f| % 2 == 1 && f[|f| - 1] == u
  }

  ghost predicate NothingOpen(t: string, m: nat)
    requires m <= |t|
  {
    exists f :: AreFences(t[..m], f) && |f| % 2 == 0
  }

  predicate Blank(c: char) {
    c == ' ' || c == '\t' || c == '\n' || c == '\r'
  }

  /** The text is sent up to e, and goes on behind the blanks that follow. */
  ghost predicate PlainAt(t: string, e: int, chunk: string, rest: string) {
    && 0 < e <= |t| && chunk == t[..e]
    && (exists k :: e <= k <= |t| && rest == t[k..] && (k < |t| ==> !Blank(t[k])) && Blanks(t, e, k))
  }

  ghost predicate Blanks(t: string, i: nat, j: nat)
    requires j <= |t|
  {
    forall k :: i <= k < j ==> Blank(t[k])
  }

  /** The block is closed at e, behind the last rune that is not blank, and opened again with its header. */
  ghost predicate InsideAt(t: string, e: int, header: string, chunk: string, rest: string) {
    && 0 <= e <= |t| && Trims(header + "\n" + t[e..], rest)
    && (exists k :: 0 <= k <= e && chunk == t[..k] + "\n```" && (0 < k ==> !Blank(t[k - 1])) && Blanks(t, k, e))
  }

  /** The header of the fence at u is its line, which ends at lineEnd, or the backticks alone. */
  ghost predicate HeaderIs(t: string, u: int, header: string, lineEnd: int) {
    && 0 <= u <= lineEnd <= |t|
    && (forall i :: u <= i < lineEnd ==> t[i] != '\n')
    && (if lineEnd < |t| && t[lineEnd] == '\n' then Trims(t[u..lineEnd], header)
        else header == "```" && lineEnd == u + 3 && forall i :: u <= i < |t| ==> t[i] != '\n')
  }

  /** No closing fence ends within maxLen. */
  ghost predicate StaysOpen(t: string, m: int, maxLen: int) {
    forall f :: m <= f <= maxLen - 3 ==> !Backticks(t, f)
  }

  ghost predicate ClosesAt(t: string, m: int, maxLen: int, f: int) {
    m <= f <= maxLen - 3 && Backticks(t, f) && forall i :: m <= i < f ==> !Backticks(t, i)
  }

  /** A cut inside a block: at the last newline behind the header's line, else five runes in front of maxLen. */
  ghost predicate BreaksInside(t: string, maxLen: int, lineEnd: int, e: int) {
    || (lineEnd < e && LastNewline(t, maxLen - 5, e))
    || (e == maxLen - 5 && forall i :: lineEnd < i < e <= |t| && 0 <= i && e - 200 <= i ==> t[i] != '\n')
  }

  /** The cut when the block at u is still open at m and does not close in time. */
  ghost predicate CutsOpen(t: string, maxLen: nat, m: int, u: int, chunk: string, rest: string) {
    exists header, lineEnd :: HeaderIs(t, u, header, lineEnd)
      && (if lineEnd + 20 < m then CutsInside(t, maxLen, lineEnd, header, chunk, rest)
          else CutsInFront(t, maxLen, u, header, chunk, rest))
  }

  ghost predicate CutsInside(t: string, maxLen: nat, lineEnd: int, header: string, chunk: string, rest: string) {
    exists e :: BreaksInside(t, maxLen, lineEnd, e) && InsideAt(t, e, header, chunk, rest)
  }

  /** In front of the block if the text breaks there or is longer than 20 runes, else inside it all the same. */
  ghost predicate CutsInFront(t: string, maxLen: nat, u: int, header: string, chunk: string, rest: string) {
    || (exists e :: BreaksAt(t, u, e) && PlainAt(t, e, chunk, rest))
    || (Unbroken(t, u) && 20 < u && PlainAt(t, u, chunk, rest))
    || (Unbroken(t, u) && u <= 20 && InsideAt(t, maxLen - 5, header, chunk, rest))
  }

  /** The cut for a text that breaks naturally at m. */
  ghost predicate CutsFrom(t: string, maxLen: nat, m: nat, chunk: string, rest: string)
    requires m <= |t|
  {
    || (NothingOpen(t, m) && PlainAt(t, m, chunk, rest))
    || (exists u :: OpenAt(t, m, u) && StaysOpen(t, m, maxLen) && CutsOpen(t, maxLen, m, u, chunk, rest))
    || (exists u, f :: OpenAt(t, m, u) && ClosesAt(t, m, maxLen, f) && PlainAt(t, f + 3, chunk, rest))
  }

  /** A tenth of maxLen, at least 50 runes and at most half of it, is left free for a closing fence. */
  function Limit(maxLen: nat): int {
    maxLen - Min(Max(maxLen / 10, 50), maxLen / 2)
  }

  /** One iteration on a text longer than maxLen: the chunk it sends and the text it leaves. */
  ghost predicate Cuts(t: string, maxLen: nat, chunk: string, rest: string) {
    exists m :: 0 < m <= |t| && (BreaksAt(t, Limit(maxLen), m) || (Unbroken(t, Limit(maxLen)) && m == Limit(maxLen)))
      && CutsFrom(t, maxLen, m, chunk, rest)
  }

  // Separators

  lemma NewlineIs(t: string, limit: nat)
    requires limit <= |t|
    ensures var n := LastIn(t[..limit], 200, IsNewline); if 0 < n then LastNewline(t, limit, n) else NoNewline(t, limit)
  {
    LastInIsLast(t[..limit], 200, IsNewline);
    hide LastIn;
    assert forall i :: 0 <= i < limit ==> t[..limit][i] == t[i];
  }

  lemma SpaceIs(t: string, limit: nat)
    requires limit <= |t|
    ensures var n := LastIn(t[..limit], 100, IsSpaceOrTab); if 0 < n then LastSpace(t, limit, n) else NoSpace(t, limit)
  {
    LastInIsLast(t[..limit], 100, IsSpaceOrTab);
    hide LastIn;
    assert forall i :: 0 <= i < limit ==> t[..limit][i] == t[i];
  }

  lemma NaturalCutIs(t: string, limit: nat)
    requires 0 < limit <= |t|
    ensures var m := NaturalCut(t, limit); BreaksAt(t, limit, m) || (Unbroken(t, limit) && m == limit)
  {
    NewlineIs(t, limit);
    SpaceIs(t, limit);
    hide LastIn, LastNewline, NoNewline, LastSpace, NoSpace;
  }

  lemma CutBeforeIs(t: string, u: nat)
    requires u <= |t|
    ensures var b := CutBefore(t, u); if 0 < b then BreaksAt(t, u, b) else Unbroken(t, u)
  {
    NewlineIs(t, u);
    SpaceIs(t, u);
    hide LastIn, LastNewline, NoNewline, LastSpace, NoSpace;
  }

  // Fences

  lemma FenceIsBackticks(s: string, i: int)
    ensures FenceAt(s, i) <==> Backticks(s, i)
    ensures Backticks(s, i) ==> 0 <= i
  {
  }

  lemma CoverStep(s: string, i: nat, g: seq<int>)
    requires FenceAt(s, i) && Apart(g) && CoverFrom(s, i + 3, g)
    ensures Apart([i] + g) && CoverFrom(s, i, [i] + g)
  {
    hide Backticks, FenceAt;
    FenceIsBackticks(s, i);
    var f := [i] + g;
    forall j | i <= j && Backticks(s, j)
      ensures Covered(f, j)
    {
      if j < i + 3 {
        assert f[0] <= j < f[0] + 3;
      } else {
        assert Covered(g, j);
        var k :| 0 <= k < |g| && g[k] <= j < g[k] + 3;
        assert f[k + 1] <= j < f[k + 1] + 3;
      }
    }
  }

  ghost predicate CoverFrom(s: string, i: nat, f: seq<int>) {
    && (forall k :: 0 <= k < |f| ==> i <= f[k] && Backticks(s, f[k]))
    && (forall j :: i <= j && Backticks(s, j) ==> Covered(f, j))
  }

  lemma CoverSkip(s: string, i: nat, f: seq<int>)
    requires !FenceAt(s, i) && CoverFrom(s, i + 1, f)
    ensures CoverFrom(s, i, f)
  {
    FenceIsBackticks(s, i);
    hide Backticks, FenceAt, Covered;
  }

  lemma {:induction false} FencesCover(s: string, i: nat)
    ensures Apart(Fences(s, i)) && CoverFrom(s, i, Fences(s, i))
    decreases |s| - i
  {
    hide FenceAt;
    if i < |s| {
      FencesCover(s, if FenceAt(s, i) then i + 3 else i + 1);
      hide CoverFrom, Apart, Backticks;
      if FenceAt(s, i) {
        CoverStep(s, i, Fences(s, i + 3));
      } else {
        CoverSkip(s, i, Fences(s, i + 1));
      }
    }
  }

  /** The scan for fences finds them all. */
  lemma FencesAre(s: string)
    ensures AreFences(s, Fences(s, 0))
  {
    FencesCover(s, 0);
    hide Fences, Backticks, Covered;
    forall i | Backticks(s, i)
      ensures Covered(Fences(s, 0), i)
    {
      FenceIsBackticks(s, i);
    }
  }

  /** Lists of fences that agree so far: the next one of f is not in front of the next one of g. */
  lemma NextFence(f: seq<int>, g: seq<int>, m: nat)
    requires Apart(f) && m < |f| && m <= |g| && (forall k :: 0 <= k < m ==> f[k] == g[k]) && Apart(g)
    requires Covered(g, f[m])
    ensures m < |g| && g[m] <= f[m]
  {
    var k :| 0 <= k < |g| && g[k] <= f[m] < g[k] + 3;
    assert forall l :: 0 <= l < m ==> f[l] + 3 <= f[m];
    assert m < k ==> g[m] + 3 <= g[k];
  }

  lemma {:induction false} SameFences(s: string, f: seq<int>, g: seq<int>, n: nat)
    requires AreFences(s, f) && AreFences(s, g) && n <= |f|
    ensures n <= |g| && forall k :: 0 <= k < n ==> f[k] == g[k]
  {
    hide Backticks, Covered, Apart;
    if n != 0 {
      SameFences(s, f, g, n - 1);
      assert Backticks(s, f[n - 1]);
      NextFence(f, g, n - 1);
      assert Backticks(s, g[n - 1]);
      NextFence(g, f, n - 1);
    }
  }

  /** No other list does. */
  lemma FencesAreUnique(s: string, f: seq<int>)
    ensures AreFences(s, f) <==> f == Fences(s, 0)
  {
    FencesAre(s);
    hide AreFences, Fences;
    if AreFences(s, f) {
      SameFences(s, f, Fences(s, 0), |f|);
      SameFences(s, Fences(s, 0), f, |Fences(s, 0)|);
    }
  }

  lemma OpenOrNot(t: string, m: nat)
    requires m <= |t|
    ensures var u := LastUnclosed(t[..m]); if u < 0 then NothingOpen(t, m) else OpenAt(t, m, u)
  {
    FencesAre(t[..m]);
    FencesAreFences(t[..m], 0);
    hide Fences, FenceAt, AreFences;
  }

  // White space

  lemma PlainIs(t: string, e: nat)
    requires 0 < e <= |t|
    ensures PlainAt(t, e, ChunkAt(t, Plain(e)), RestAfter(t, Plain(e)))
  {
    var s := t[e..];
    LeadingIs(s, IsBlank);
    hide Leading;
    var k := e + Leading(s, IsBlank);
    assert s[Leading(s, IsBlank)..] == t[k..];
    assert forall i :: e <= i < |t| ==> t[i] == s[i - e];
    assert Blanks(t, e, k);
  }

  lemma InsideIs(t: string, c: Cut)
    requires c.Fenced? && c.end <= |t| && c.open + c.header <= |t|
    ensures InsideAt(t, c.end, t[c.open..c.open + c.header], ChunkAt(t, c), RestAfter(t, c))
  {
    var s := t[..c.end];
    KeptIs(s, IsBlank);
    TrimSpaceTrims(t[c.open..c.open + c.header] + "\n" + t[c.end..]);
    hide Kept, TrimSpace, Trims;
    var k := Kept(s, IsBlank);
    assert s[..k] == t[..k];
    assert forall i :: 0 <= i < c.end ==> t[i] == s[i];
    assert Blanks(t, k, c.end);
  }

  // The header and the closing fence

  lemma HeaderOf(t: string, u: nat)
    requires FenceAt(t, u)
    ensures HeaderIs(t, u, t[u..u + HeaderLength(t, u)], HeaderEnd(t, u))
  {
    var s := t[u..];
    var n := FirstNewline(s);
    FirstNewlineIsFirst(s);
    assert FenceAt(s, 0);
    assert forall i :: u <= i < |t| ==> t[i] == s[i - u];
    if n < 0 {
      assert t[u..u + 3] == "```";
    } else {
      TrimmedLineIs(s);
      TrimSpaceTrims(s[..n]);
      hide TrimSpace, TrimmedLine, FirstNewline, Trims;
      assert s[..n] == t[u..u + n];
      assert s[..TrimmedLine(s)] == t[u..u + HeaderLength(t, u)];
    }
  }

  lemma ClosingIs(t: string, m: nat, maxLen: nat)
    requires m <= |t| && maxLen <= |t|
    ensures var f := FirstFence(t[m..], 0);
      if 0 <= f && m + f + 3 <= maxLen then ClosesAt(t, m, maxLen, m + f) else StaysOpen(t, m, maxLen)
  {
    FirstFenceIsFirst(t[m..], 0);
    hide FirstFence, FenceAt, Backticks;
    forall i | m <= i
      ensures Backticks(t, i) <==> FenceAt(t[m..], i - m)
    {
      FenceIsBackticks(t[m..], i - m);
      assert Backticks(t, i) <==> Backticks(t[m..], i - m) by {
        BackticksShift(t, m, i);
      }
    }
  }

  lemma BackticksShift(t: string, m: nat, i: nat)
    requires m <= |t| && m <= i
    ensures Backticks(t, i) <==> Backticks(t[m..], i - m)
  {
    assert i + 3 <= |t| ==> t[i..i + 3] == t[m..][i - m..i - m + 3];
  }

  // The cut

  lemma InsideBreak(t: string, maxLen: nat, lineEnd: nat)
    requires 5 <= maxLen <= |t| && 0 < lineEnd
    ensures var b := LastIn(t[..maxLen - 5], 200, IsNewline);
      BreaksInside(t, maxLen, lineEnd, if lineEnd < b then b else maxLen - 5)
  {
    NewlineIs(t, maxLen - 5);
    var b := LastIn(t[..maxLen - 5], 200, IsNewline);
    LastInIsLast(t[..maxLen - 5], 200, IsNewline);
    hide LastIn;
    assert forall i :: 0 <= i < maxLen - 5 ==> t[..maxLen - 5][i] == t[i];
  }

  /** What a cut does once it is chosen. */
  ghost predicate Does(t: string, c: Cut, header: string) {
    && c.end <= |t| && (c.Fenced? ==> c.open + c.header <= |t|)
    && (if c.Plain? then PlainAt(t, c.end, ChunkAt(t, c), RestAfter(t, c))
        else InsideAt(t, c.end, header, ChunkAt(t, c), RestAfter(t, c)))
  }

  lemma CutDoes(t: string, c: Cut, header: string)
    requires c.end <= |t| && (c.Plain? ==> 0 < c.end)
    requires c.Fenced? ==> c.open + c.header <= |t| && header == t[c.open..c.open + c.header]
    ensures Does(t, c, header)
  {
    hide PlainAt, InsideAt, ChunkAt, RestAfter;
    if c.Plain? {
      PlainIs(t, c.end);
    } else {
      InsideIs(t, c);
    }
  }

  lemma InsideCut(t: string, maxLen: nat, lineEnd: nat, header: string, c: Cut)
    requires 5 <= maxLen <= |t| && 0 < lineEnd && c.Fenced? && Does(t, c, header)
    requires var b := LastIn(t[..maxLen - 5], 200, IsNewline); c.end == if lineEnd < b then b else maxLen - 5
    ensures CutsInside(t, maxLen, lineEnd, header, ChunkAt(t, c), RestAfter(t, c))
  {
    InsideBreak(t, maxLen, lineEnd);
    hide LastIn, BreaksInside, InsideAt, ChunkAt, RestAfter;
  }

  lemma CutInFront(t: string, maxLen: nat, u: nat, header: string, c: Cut)
    requires u <= |t| && Does(t, c, header)
    requires var b := CutBefore(t, u);
      if 0 < b then c == Plain(b) else if 20 < u then c == Plain(u) else c.Fenced? && c.end == maxLen - 5
    ensures CutsInFront(t, maxLen, u, header, ChunkAt(t, c), RestAfter(t, c))
  {
    CutBeforeIs(t, u);
    hide CutBefore, BreaksAt, Unbroken, PlainAt, InsideAt, ChunkAt, RestAfter;
  }

  lemma OpenCutIs(t: string, maxLen: nat, m: nat, u: nat)
    requires 0 < m <= maxLen < |t| && FenceAt(t, u) && u + 2 < m && m <= EffectiveLimit(maxLen)
    ensures var c := OpenCut(t, maxLen, m, u); CutsOpen(t, maxLen, m, u, ChunkAt(t, c), RestAfter(t, c))
  {
    hide EffectiveLimit, HeaderLength, HeaderEnd, CutBefore, LastIn, FenceAt, HeaderIs, CutsInside, CutsInFront, Does;
    hide ChunkAt, RestAfter;
    var c, lineEnd := OpenCut(t, maxLen, m, u), HeaderEnd(t, u);
    var header := t[u..u + HeaderLength(t, u)];
    HeaderOf(t, u);
    CutDoes(t, c, header);
    if lineEnd + 20 < m {
      InsideCut(t, maxLen, lineEnd, header, c);
    } else {
      CutInFront(t, maxLen, u, header, c);
    }
    assert HeaderIs(t, u, header, lineEnd);
  }

  lemma FencedCutIs(t: string, maxLen: nat, m: nat, u: nat)
    requires 0 < m <= maxLen < |t| && FenceAt(t, u) && u + 2 < m && m <= EffectiveLimit(maxLen) && OpenAt(t, m, u)
    ensures var c := FencedCut(t, maxLen, m, u); CutsFrom(t, maxLen, m, ChunkAt(t, c), RestAfter(t, c))
  {
    hide FirstFence, EffectiveLimit, OpenAt, ClosesAt, StaysOpen, PlainAt, CutsOpen, OpenCut, ChunkAt, RestAfter;
    hide FenceAt, NothingOpen;
    var f := FirstFence(t[m..], 0);
    ClosingIs(t, m, maxLen);
    if 0 <= f && m + f + 3 <= maxLen {
      PlainIs(t, m + f + 3);
      assert ClosesAt(t, m, maxLen, m + f);
    } else {
      OpenCutIs(t, maxLen, m, u);
    }
  }

  /** What one iteration sends and leaves, for every text longer than maxLen. */
  lemma ChooseCutCuts(t: string, maxLen: nat)
    requires 0 < maxLen < |t|
    ensures var c := ChooseCut(t, maxLen); Cuts(t, maxLen, ChunkAt(t, c), RestAfter(t, c))
  {
    var e := EffectiveLimit(maxLen);
    assert e == Limit(maxLen);
    hide EffectiveLimit, Limit;
    NaturalCutIs(t, e);
    var m := NaturalCut(t, e);
    hide NaturalCut;
    var u := LastUnclosed(t[..m]);
    OpenOrNot(t, m);
    UnclosedInside(t, m);
    hide LastUnclosed, FencedCut, BreaksAt, Unbroken, OpenAt, NothingOpen, ChunkAt, RestAfter;
    if u < 0 {
      PlainIs(t, m);
    } else {
      FencedCutIs(t, maxLen, m, u);
    }
    assert CutsFrom(t, maxLen, m, ChunkAt(t, ChooseCut(t, maxLen)), RestAfter(t, ChooseCut(t, maxLen)));
  }

  /** Every iteration of every run sends the last chunk, or cuts like this. */
  lemma EveryChunkIsCut(st: State, maxLen: nat, n: nat)
    requires 0 < maxLen && Run(st, maxLen, n).rest != ""
    ensures var a, b := Run(st, maxLen, n), Run(st, maxLen, n + 1);
      if |a.rest| <= maxLen then b == State("", a.chunks + [a.rest])
      else exists chunk :: b.chunks == a.chunks + [chunk] && Cuts(a.rest, maxLen, chunk, b.rest)
  {
    var a := Run(st, maxLen, n);
    RunSnoc(st, maxLen, n);
    RunOnce(a, maxLen, 0);
    hide Run, ChooseCut, ChunkAt, RestAfter, Cuts;
    if maxLen < |a.rest| {
      ChooseCutCuts(a.rest, maxLen);
    }
  }

  lemma OpenHasFence(t: string, m: nat, u: int)
    requires m <= |t| && OpenAt(t, m, u)
    ensures Backticks(t, u)
  {
    hide Covered, Apart;
    assert Backticks(t[..m], u);
    assert t[..m][u..u + 3] == t[u..u + 3];
  }

  /** In a text without fences no word is cut that has a separator within reach. */
  lemma WordsStayWhole(t: string, maxLen: nat, chunk: string, rest: string, i: nat)
    requires 0 < maxLen < |t| && Cuts(t, maxLen, chunk, rest) && forall k :: !Backticks(t, k)
    requires 0 < i < Limit(maxLen) && Limit(maxLen) - 100 <= i && (t[i] == ' ' || t[i] == '\t' || t[i] == '\n')
    ensures 0 < |chunk| < |t| && chunk == t[..|chunk|] && Blank(t[|chunk|]) && (i <= |chunk| || t[|chunk|] == '\n')
  {
    hide Backticks, OpenAt, CutsOpen, StaysOpen, ClosesAt, NothingOpen;
    var l := Limit(maxLen);
    hide Limit;
    var m :| 0 < m <= |t| && (BreaksAt(t, l, m) || (Unbroken(t, l) && m == l)) && CutsFrom(t, maxLen, m, chunk, rest);
    if u :| OpenAt(t, m, u) {
      OpenHasFence(t, m, u);
      assert false;
    }
    assert PlainAt(t, m, chunk, rest);
    hide PlainAt, CutsFrom;
    assert chunk == t[..m] by {
      PlainSends(t, m, chunk, rest);
    }
  }

  lemma PlainSends(t: string, m: nat, chunk: string, rest: string)
    requires PlainAt(t, m, chunk, rest)
    ensures m <= |t| && chunk == t[..m]
  {
  }
}
