/** When the splitter's loop ends, told from the message alone. */
module SplitInput {
  import opened Text
  import opened SplitScan
  import opened Splitter
  import opened SplitTermination
  import opened SplitFences
  import opened SplitExact

  /** A fence that opens a block stands at u: an even number of fences stands in front of it. */
  ghost predicate OpensAt(t: string, u: int) {
    exists k {:trigger Fences(t, 0)[k]} :: 0 <= k < |Fences(t, 0)| && !Odd(k) && Fences(t, 0)[k] == u
  }

  /** Some block opens with a header that does not fit, and nothing closes it within reach. */
  ghost predicate HasStall(t: string, maxLen: nat) {
    exists u: nat :: u <= |t| && OpensAt(t, u) && Stalled(t[u..], maxLen)
  }

  predicate EndsInInk(t: string) {
    t != "" ==> !IsSpace(t[|t| - 1])
  }

  /** Well-placed fences, no newline in front and no white space behind. */
  ghost predicate Clean(t: string) {
    WellPlaced(t) && EndsInInk(t) && (t != "" ==> t[0] != '\n')
  }

  // Fences of parts

  lemma {:induction false} FencesAscend(t: string, i: nat, k: nat)
    requires k < |Fences(t, i)| - 1
    ensures Fences(t, i)[k] + 3 <= Fences(t, i)[k + 1]
    decreases |t| - i, k
  {
    if FenceAt(t, i) {
      FencesAreFences(t, i + 3);
      if k != 0 {
        FencesAscend(t, i + 3, k - 1);
      }
    } else {
      FencesAscend(t, i + 1, k);
    }
  }

  lemma {:induction false} FencesShift(t: string, c: nat, i: nat)
    requires c <= |t|
    ensures |Fences(t[c..], i)| == |Fences(t, c + i)|
    ensures forall k :: 0 <= k < |Fences(t[c..], i)| ==> Fences(t[c..], i)[k] + c == Fences(t, c + i)[k]
    decreases |t| - i
  {
    assert FenceAt(t[c..], i) == FenceAt(t, c + i);
    if i < |t| - c {
      FencesShift(t, c, if FenceAt(t, c + i) then i + 3 else i + 1);
    }
  }

  lemma {:induction false} FencesSkip(t: string, a: nat, b: nat)
    requires a <= b && forall i :: a <= i < b ==> !FenceAt(t, i)
    ensures Fences(t, a) == Fences(t, b)
    decreases b - a
  {
    if a < b {
      FencesSkip(t, a + 1, b);
    }
  }

  /** A block that closes within reach does not stall. */
  lemma ClosedDoesNotStall(t: string, maxLen: nat, u: nat, p: nat)
    requires u < p <= u + maxLen - 3 && u <= |t| && FenceAt(t, p)
    ensures !Stalled(t[u..], maxLen)
  {
    assert FenceAt(t[u..], p - u);
  }

  /** Blocks that are all closed before index maxLen stand in front of position c. */
  ghost predicate ClosedFront(t: string, maxLen: nat, front: seq<int>, c: nat) {
    && c <= |t| && Fences(t, 0) == front + Fences(t, c) && !Odd(|front|)
    && forall k :: 0 <= k < |front| ==> 0 <= front[k] && FenceAt(t, front[k]) && front[k] + 3 <= maxLen
  }

  lemma OpensInRest(t: string, maxLen: nat, front: seq<int>, c: nat, u: nat)
    requires ClosedFront(t, maxLen, front, c) && OpensAt(t[c..], u)
    ensures OpensAt(t, c + u)
  {
    FencesShift(t, c, 0);
    var k :| 0 <= k < |Fences(t[c..], 0)| && !Odd(k) && Fences(t[c..], 0)[k] == u;
    assert Fences(t, 0)[|front| + k] == Fences(t, c)[k] == u + c && !Odd(|front| + k);
  }

  /** A block that opens in front closes within reach; any other opens in the rest. */
  lemma OpensBehind(t: string, maxLen: nat, front: seq<int>, c: nat, u: nat)
    requires ClosedFront(t, maxLen, front, c) && u <= |t| && OpensAt(t, u) && Stalled(t[u..], maxLen)
    ensures c <= u && OpensAt(t[c..], u - c)
  {
    FencesShift(t, c, 0);
    var k :| 0 <= k < |Fences(t, 0)| && !Odd(k) && Fences(t, 0)[k] == u;
    if k < |front| {
      assert k + 1 < |front|;
      FencesAscend(t, 0, k);
      ClosedDoesNotStall(t, maxLen, u, front[k + 1]);
    } else {
      hide Stalled;
      assert Fences(t[c..], 0)[k - |front|] + c == Fences(t, c)[k - |front|] == u && !Odd(k - |front|);
      FencesAreFences(t[c..], 0);
    }
  }

  /** Behind blocks that are closed, the blocks open and close as in the rest alone. */
  lemma StallsInRest(t: string, maxLen: nat, front: seq<int>, c: nat)
    requires ClosedFront(t, maxLen, front, c)
    ensures HasStall(t, maxLen) <==> HasStall(t[c..], maxLen)
  {
    assert c <= |t|;
    hide ClosedFront, OpensAt, Stalled;
    if HasStall(t[c..], maxLen) {
      var u: nat :| u <= |t[c..]| && OpensAt(t[c..], u) && Stalled(t[c..][u..], maxLen);
      OpensInRest(t, maxLen, front, c, u);
      assert t[c..][u..] == t[c + u..];
    }
    if HasStall(t, maxLen) {
      var u: nat :| u <= |t| && OpensAt(t, u) && Stalled(t[u..], maxLen);
      OpensBehind(t, maxLen, front, c, u);
      assert t[c..][u - c..] == t[u..];
    }
  }

  // Plain cuts

  lemma PlainNotInside(t: string, maxLen: nat)
    requires 10 <= maxLen < |t| && WellPlaced(t) && ChooseCut(t, maxLen).Plain?
    ensures NotInside(t, ChooseCut(t, maxLen).end)
  {
    var m := NaturalCut(t, EffectiveLimit(maxLen));
    var u := LastUnclosed(t[..m]);
    var e := ChooseCut(t, maxLen).end;
    NaturalCutNotInside(t, maxLen);
    UnclosedInside(t, m);
    hide LastUnclosed, NaturalCut, EffectiveLimit, FirstFence, HeaderEnd, HeaderLength, LastIn;
    if 0 <= u && e != m {
      var f := FirstFence(t[m..], 0);
      if 0 <= f && m + f + 3 <= maxLen {
        FirstFenceAfter(t, m, -1);
        BehindFence(t, m + f);
      } else {
        BeforeIsNewline(t, u);
        assert e == u - 1;
        NewlineIsOutside(t, e);
      }
    }
  }

  lemma BehindFence(t: string, p: nat)
    requires WellPlaced(t) && FenceAt(t, p)
    ensures NotInside(t, p + 3)
  {
    forall i | FenceAt(t, i)
      ensures p + 3 <= i || i + 3 <= p + 3
    {
      assert WellPlacedAt(t, i);
    }
  }

  lemma NewlineIsOutside(t: string, e: nat)
    requires e < |t| && t[e] == '\n'
    ensures NotInside(t, e)
  {
  }

  /** Blanks that are skipped hold no fence. */
  lemma BlanksHoldNoFence(t: string, e: nat)
    requires e <= |t|
    ensures var lead := Leading(t[e..], IsBlank);
      e + lead <= |t| && forall i :: e <= i < e + lead ==> !FenceAt(t, i)
  {
    var lead := Leading(t[e..], IsBlank);
    LeadingIs(t[e..], IsBlank);
    forall i | e <= i < e + lead
      ensures !FenceAt(t, i)
    {
      assert t[e..][i - e] == t[i];
    }
  }

  lemma PlainKeepsStalls(t: string, maxLen: nat)
    requires 10 <= maxLen < |t| && WellPlaced(t) && ChooseCut(t, maxLen).Plain?
    ensures HasStall(t, maxLen) <==> HasStall(RestAfter(t, ChooseCut(t, maxLen)), maxLen)
  {
    var c := ChooseCut(t, maxLen);
    PlainNotInside(t, maxLen);
    ChunkIsBalanced(t, maxLen);
    var e, lead := c.end, Leading(t[c.end..], IsBlank);
    assert t[e..][lead..] == t[e + lead..];
    assert RestAfter(t, c) == t[e + lead..] && ChunkAt(t, c) == t[..e];
    hide *;
    BalancedFront(t, maxLen, e, lead);
    StallsInRest(t, maxLen, Fences(t[..e], 0), e + lead);
  }

  lemma BalancedFront(t: string, maxLen: nat, e: nat, lead: nat)
    requires e <= maxLen && e <= |t| && NotInside(t, e) && Balanced(t[..e]) && lead == Leading(t[e..], IsBlank)
    ensures ClosedFront(t, maxLen, Fences(t[..e], 0), e + lead)
  {
    var front := Fences(t[..e], 0);
    FencesDivide(t, e, 0);
    FencesAreFences(t[..e], 0);
    assert !Odd(|front|) by {
      assert front != [] ==> 0 <= front[|front| - 1];
    }
    BlanksHoldNoFence(t, e);
    hide NotInside, Leading, Fences;
    FencesSkip(t, e, e + lead);
    forall k | 0 <= k < |front|
      ensures 0 <= front[k] && FenceAt(t, front[k]) && front[k] + 3 <= maxLen
    {
      assert FenceAt(t[..e], front[k]);
    }
  }

  // Fenced cuts

  /** The fences around a fenced cut: closed blocks, the open fence, and nothing from there to the cut. */
  lemma FencesAtFencedCut(t: string, maxLen: nat) returns (front: seq<int>)
    requires 10 <= maxLen < |t| && WellPlaced(t) && ChooseCut(t, maxLen).Fenced?
    ensures var c := ChooseCut(t, maxLen);
      && c.open + 3 <= c.end <= maxLen - 5 && FenceAt(t, c.open) && NotInside(t, c.end)
      && Fences(t, 0) == front + [c.open as int] + Fences(t, c.end) && !Odd(|front|)
      && (forall k :: 0 <= k < |front| ==> 0 <= front[k] && FenceAt(t, front[k]) && front[k] + 3 <= c.open)
      && (forall i :: c.open < i <= maxLen - 3 ==> !FenceAt(t, i))
  {
    var c := ChooseCut(t, maxLen);
    var m := NaturalCut(t, EffectiveLimit(maxLen));
    var u := c.open;
    FencedCutEnds(t, maxLen);
    NaturalCutNotInside(t, maxLen);
    OpenFenceIsLast(t, m, u);
    hide ChooseCut, NaturalCut, EffectiveLimit, LastUnclosed;
    var f := Fences(t[..m], 0);
    front := f[..|f| - 1];
    assert f == front + [u as int];
    FencesDivide(t, m, 0);
    FencesSkip(t, m, c.end);
    FrontIsClosed(t[..m], front, u);
    assert forall k :: 0 <= k < |front| ==> FenceAt(t[..m], front[k]) && FenceAt(t, front[k]);
    NothingBehindOpen(t, m, u);
    forall i | c.open < i <= maxLen - 3
      ensures !FenceAt(t, i)
    {
      assert i < m || m <= i;
    }
  }

  /** A fenced cut comes behind the natural one, which comes behind the open fence; no fence closes within reach. */
  lemma FencedCutEnds(t: string, maxLen: nat)
    requires 10 <= maxLen < |t| && WellPlaced(t) && ChooseCut(t, maxLen).Fenced?
    ensures var c, m := ChooseCut(t, maxLen), NaturalCut(t, EffectiveLimit(maxLen));
      && m <= c.end && m <= maxLen - 5 && LastUnclosed(t[..m]) == c.open && c.open + 3 <= m
      && (forall i :: m <= i <= maxLen - 3 ==> !FenceAt(t, i))
      && (HeaderEnd(t, c.open) + 20 < m || (c.end == maxLen - 5 && CutBefore(t, c.open) <= 0))
  {
    var m := NaturalCut(t, EffectiveLimit(maxLen));
    var u := LastUnclosed(t[..m]);
    UnclosedInside(t, m);
    hide LastUnclosed, NaturalCut, EffectiveLimit, FirstFence, HeaderEnd, HeaderLength, LastIn, CutBefore;
    if HeaderEnd(t, u) + 20 < m {
      InnerCutIsFar(t, maxLen, u);
    }
    forall i | m <= i <= maxLen - 3
      ensures !FenceAt(t, i)
    {
      FirstFenceAfter(t, m, i);
    }
  }

  lemma FrontIsClosed(s: string, front: seq<int>, u: nat)
    requires Fences(s, 0) == front + [u as int]
    ensures forall k :: 0 <= k < |front| ==> 0 <= front[k] && FenceAt(s, front[k]) && front[k] + 3 <= u
  {
    FencesAreFences(s, 0);
    forall k | 0 <= k < |front|
      ensures 0 <= front[k] && FenceAt(s, front[k]) && front[k] + 3 <= u
    {
      FencesUpTo(s, k, |front|);
      assert Fences(s, 0)[k] == front[k];
    }
  }

  lemma {:induction false} FencesUpTo(s: string, k: nat, n: nat)
    requires k < n < |Fences(s, 0)|
    ensures Fences(s, 0)[k] + 3 <= Fences(s, 0)[n]
    decreases n
  {
    FencesAscend(s, 0, n - 1);
    if k < n - 1 {
      FencesUpTo(s, k, n - 1);
    }
  }

  /** Behind the last open fence there is no other up to the natural cut. */
  lemma NothingBehindOpen(t: string, m: nat, u: nat)
    requires m <= |t| && WellPlaced(t) && NotInside(t, m)
    requires FenceAt(t, u) && u + 3 <= m && Fences(t[..m], 0) != []
    requires Fences(t[..m], 0)[|Fences(t[..m], 0)| - 1] == u
    ensures forall i :: u < i < m ==> !FenceAt(t, i)
  {
    var s := t[..m];
    WellPlacedPrefix(t, m);
    forall i | u < i < m
      ensures !FenceAt(t, i)
    {
      if FenceAt(t, i) {
        assert i + 3 <= m;
        assert FenceAt(s, i);
        EveryFenceCounts(s, 0, i);
        var k :| 0 <= k < |Fences(s, 0)| && Fences(s, 0)[k] == i;
        if k < |Fences(s, 0)| - 1 {
          FencesUpTo(s, k, |Fences(s, 0)| - 1);
        }
      }
    }
  }

  /** Well-placed fences do not overlap, so the scan counts each of them. */
  lemma {:induction false} EveryFenceCounts(s: string, j: nat, i: nat)
    requires WellPlaced(s) && j <= i && FenceAt(s, i)
    ensures exists k {:trigger Fences(s, j)[k]} :: 0 <= k < |Fences(s, j)| && Fences(s, j)[k] == i
    decreases i - j
  {
    if i == j {
      assert Fences(s, j)[0] == i;
    } else if FenceAt(s, j) {
      assert WellPlacedAt(s, j) && WellPlacedAt(s, i);
      EveryFenceCounts(s, j + 3, i);
      var k :| 0 <= k < |Fences(s, j + 3)| && Fences(s, j + 3)[k] == i;
      assert Fences(s, j)[k + 1] == i;
    } else {
      EveryFenceCounts(s, j + 1, i);
      var k :| 0 <= k < |Fences(s, j + 1)| && Fences(s, j + 1)[k] == i;
      assert Fences(s, j)[k] == i;
    }
  }

  lemma InkEnds(header: string, tail: string)
    requires header != "" && tail != "" && header[0] == '`' && !IsSpace(tail[|tail| - 1])
    ensures var x := header + "\n" + tail; TrimSpace(x) == x && x[0] == '`' && !IsSpace(x[|x| - 1])
  {
    hide TrimSpace, IsSpace;
    var x := header + "\n" + tail;
    assert x[|x| - 1] == tail[|tail| - 1];
    assert !IsSpace('`') by {
      BacktickIsInk();
    }
    NoSpaceAround(x);
  }

  lemma BacktickIsInk()
    ensures !IsSpace('`')
  {
  }

  /** A cut inside the block that opens at c.open. */
  ghost predicate InBlock(t: string, c: Cut) {
    c.Fenced? && c.end < |t| && FenceAt(t, c.open) && c.header == HeaderLength(t, c.open)
  }

  /** The text behind a fenced cut, when the message ends in ink. */
  lemma FencedRest(t: string, c: Cut)
    requires WellPlaced(t) && EndsInInk(t) && InBlock(t, c)
    ensures RestAfter(t, c) == t[c.open..c.open + c.header] + "\n" + t[c.end..] && Clean(RestAfter(t, c))
  {
    RestIsWellPlaced(t, c);
    hide WellPlaced, HeaderLength, TrimSpace, IsSpace;
    var header, tail := t[c.open..c.open + c.header], t[c.end..];
    assert header[0] == '`' && tail[|tail| - 1] == t[|t| - 1];
    InkEnds(header, tail);
  }

  /** Behind a reopened header the blocks open and close as in the rest; the header itself opens one. */
  lemma ReopenedFences(x: string, h: nat, rest: string)
    requires 3 <= h && |x| == h + 1 + |rest| && x[h + 1..] == rest && WellPlaced(x) && FenceAt(x, 0)
    requires forall i :: 0 <= i < h ==> x[i] != '\n'
    ensures Fences(x, 0) == [0] + Fences(x, h + 1)
    ensures |Fences(x, h + 1)| == |Fences(rest, 0)|
    ensures forall k :: 0 <= k < |Fences(rest, 0)| ==> Fences(rest, 0)[k] + h + 1 == Fences(x, h + 1)[k]
  {
    forall i | 3 <= i < h + 1
      ensures !FenceAt(x, i)
    {
      assert x[i - 1] != '\n';
    }
    FencesSkip(x, 3, h + 1);
    FencesShift(x, h + 1, 0);
  }

  /** A text cut behind an open block, and the text with that block's header put back. */
  ghost predicate CutAndReopened(t: string, maxLen: nat, x: string, front: seq<int>, u: nat, e: nat, h: nat) {
    && e <= |t| && Fences(t, 0) == front + [u as int] + Fences(t, e) && !Odd(|front|) && u < e && u + 3 <= maxLen
    && 3 <= h && |x| == h + 1 + |t| - e && x[h + 1..] == t[e..] && WellPlaced(x) && FenceAt(x, 0) && FenceAt(t, u)
    && (forall i :: 0 <= i < h ==> x[i] != '\n')
    && (forall k :: 0 <= k < |front| ==> 0 <= front[k] && FenceAt(t, front[k]) && front[k] + 3 <= u)
  }

  /** The blocks that open behind a fenced cut, before it and after. */
  lemma OpensBehindFencedCut(t: string, maxLen: nat, x: string, front: seq<int>, u: nat, e: nat, h: nat, v: nat)
    requires CutAndReopened(t, maxLen, x, front, u, e, h) && e <= v
    ensures OpensAt(t, v) <==> OpensAt(x, v - e + h + 1)
  {
    FencesShift(t, e, 0);
    ReopenedFences(x, h, t[e..]);
    var r, s := Fences(t, e), Fences(x, h + 1);
    forall k | 0 <= k < |s|
      ensures s[k] - (h + 1) == r[k] - e
    {
      assert Fences(t[e..], 0)[k] + e == r[k];
    }
    SameParity(Fences(t, 0), Fences(x, 0), front, u, r, s, e, h + 1, v);
    hide Fences, CutAndReopened;
  }

  /** The same positions, moved, behind an even number of others and behind none. */
  lemma SameParity(a: seq<int>, b: seq<int>, front: seq<int>, u: int, r: seq<int>, s: seq<int>, e: int, d: int, v: int)
    requires a == front + [u] + r && b == [0] + s && |r| == |s| && !Odd(|front|) && e <= v && u < e && 0 < d
    requires forall k :: 0 <= k < |front| ==> front[k] < e
    requires forall k :: 0 <= k < |s| ==> s[k] - d == r[k] - e
    ensures (exists k {:trigger a[k]} :: 0 <= k < |a| && !Odd(k) && a[k] == v)
      <==> (exists k {:trigger b[k]} :: 0 <= k < |b| && !Odd(k) && b[k] == v - e + d)
  {
    var n := |front|;
    forall k | 0 <= k <= n
      ensures a[k] < e
    {
      assert a[k] == if k < n then front[k] else u;
    }
    if k :| 0 <= k < |a| && !Odd(k) && a[k] == v {
      assert n < k && a[k] == r[k - n - 1] && !Odd(k - n);
      assert b[k - n] == s[k - n - 1];
    }
    if k :| 0 <= k < |b| && !Odd(k) && b[k] == v - e + d {
      assert 0 < k && !Odd(k + n) && b[k] == s[k - 1];
      assert a[k + n] == r[k - 1];
    }
  }

  lemma HeaderOfCopy(t: string, u: nat, tail: string)
    requires FenceAt(t, u)
    ensures var h := HeaderLength(t, u);
      var x := t[u..u + h] + "\n" + tail;
      && FenceAt(x, 0) && HeaderLength(x, 0) == h && FenceAt(t[u..], 0) && HeaderLength(t[u..], 0) == h
      && forall i :: 0 <= i < h ==> x[i] != '\n'
  {
    var h := HeaderLength(t, u);
    HeaderIsInk(t, u);
    assert FenceAt(t[u..], 0);
    SuffixHeader(t, u, 0);
    hide HeaderLength, FirstNewline, IsSpace;
    var header := t[u..u + h];
    assert FenceAt(header, 0) && forall i :: 0 <= i < h ==> header[i] == t[u + i];
    ReopenedHeader(header, tail);
  }

  /** The fence at u has a header of length h, and x starts with a fence and a header as long. */
  ghost predicate HeaderAgain(t: string, u: nat, h: nat, x: string) {
    && u <= |t| && FenceAt(t[u..], 0) && HeaderLength(t[u..], 0) == h
    && FenceAt(x, 0) && HeaderLength(x, 0) == h && 3 <= h < |x| && forall i :: 0 <= i < h ==> x[i] != '\n'
  }

  /** The header of the open block is the header of the text behind a fenced cut. */
  lemma SameHeader(t: string, c: Cut)
    requires Clean(t) && InBlock(t, c)
    ensures HeaderAgain(t, c.open, c.header, RestAfter(t, c))
  {
    FencedRest(t, c);
    hide RestAfter, Clean, HeaderLength, FenceAt;
    HeaderOfCopy(t, c.open, t[c.end..]);
  }

  /** A last resort is taken for a block at the front only. */
  lemma LastResortAtFront(t: string, maxLen: nat)
    requires 10 <= maxLen < |t| && Clean(t) && ChooseCut(t, maxLen).Fenced?
    ensures var c := ChooseCut(t, maxLen);
      || c.header < maxLen - 6
      || (c.open == 0 && c.end == maxLen - 5 && forall i :: 0 < i <= maxLen - 3 ==> !FenceAt(t, i))
  {
    var c := ChooseCut(t, maxLen);
    FencedCutEnds(t, maxLen);
    var front := FencesAtFencedCut(t, maxLen);
    BeforeIsNewline(t, c.open);
    assert 0 < c.open ==> WellPlacedAt(t, c.open);
    hide ChooseCut, NaturalCut, EffectiveLimit, LastUnclosed, WellPlaced, HeaderLength, CutBefore, Fences;
  }

  lemma FrontBlockStallsAgain(t: string, maxLen: nat, c: Cut)
    requires 10 <= maxLen < |t| && Clean(t) && InBlock(t, c) && c == ChooseCut(t, maxLen)
    requires maxLen - 6 <= c.header && c.open == 0 && forall i :: 0 < i <= maxLen - 3 ==> !FenceAt(t, i)
    ensures Stalled(t, maxLen) && Stalled(RestAfter(t, c), maxLen)
  {
    assert t[0..] == t;
    assert Stalled(t, maxLen);
    hide ChooseCut, RestAfter, HeaderLength, Stalled;
    RestOfLastResort(t, maxLen);
    ReopenedIsStalled(t, maxLen);
  }

  /** What the open block of a fenced cut contributes: it stalls where it stands if and only if it stalls reopened. */
  lemma OpenBlockStallsAgain(t: string, maxLen: nat, c: Cut)
    requires 10 <= maxLen < |t| && Clean(t) && InBlock(t, c) && c == ChooseCut(t, maxLen)
    ensures Stalled(t[c.open..], maxLen) <==> Stalled(RestAfter(t, c), maxLen)
  {
    SameHeader(t, c);
    LastResortAtFront(t, maxLen);
    hide ChooseCut, RestAfter, Clean, HeaderLength, FenceAt;
    if maxLen - 6 <= c.header {
      hide Stalled;
      assert t[0..] == t;
      FrontBlockStallsAgain(t, maxLen, c);
    }
  }

  lemma BehindHeader(header: string, tail: string)
    ensures var x := header + "\n" + tail; |x| == |header| + 1 + |tail| && x[|header| + 1..] == tail
  {
  }

  lemma FencedCutReopens(t: string, maxLen: nat, c: Cut) returns (front: seq<int>)
    requires 10 <= maxLen < |t| && Clean(t) && InBlock(t, c) && c == ChooseCut(t, maxLen)
    ensures CutAndReopened(t, maxLen, RestAfter(t, c), front, c.open, c.end, c.header)
  {
    FencedRest(t, c);
    SameHeader(t, c);
    front := FencesAtFencedCut(t, maxLen);
    hide ChooseCut, RestAfter, HeaderLength, Fences, IsSpace, WellPlaced, NotInside, FenceAt;
    BehindHeader(t[c.open..c.open + c.header], t[c.end..]);
  }

  /** From a fenced cut on, the same blocks stall. */
  lemma FencedKeepsStalls(t: string, maxLen: nat, c: Cut)
    requires 10 <= maxLen < |t| && Clean(t) && InBlock(t, c) && c == ChooseCut(t, maxLen)
    ensures HasStall(t, maxLen) <==> HasStall(RestAfter(t, c), maxLen)
  {
    hide ChooseCut, RestAfter, Clean, HasStall, Stalled, CutAndReopened, FenceAt, HeaderLength;
    OpenBlockStallsAgain(t, maxLen, c);
    var front := FencedCutReopens(t, maxLen, c);
    StallsBehindFencedCut(t, maxLen, RestAfter(t, c), front, c.open, c.end, c.header);
  }

  lemma StallsBehindFencedCut(t: string, maxLen: nat, x: string, front: seq<int>, u: nat, e: nat, h: nat)
    requires CutAndReopened(t, maxLen, x, front, u, e, h)
    requires u <= |t| && (Stalled(t[u..], maxLen) <==> Stalled(x, maxLen))
    ensures HasStall(t, maxLen) <==> HasStall(x, maxLen)
  {
    hide Stalled, OpensAt, CutAndReopened;
    if HasStall(t, maxLen) {
      var v: nat :| v <= |t| && OpensAt(t, v) && Stalled(t[v..], maxLen);
      StallMoves(t, maxLen, x, front, u, e, h, v);
    }
    if HasStall(x, maxLen) {
      var w: nat :| w <= |x| && OpensAt(x, w) && Stalled(x[w..], maxLen);
      StallCame(t, maxLen, x, front, u, e, h, w);
    }
  }

  lemma StallMoves(
    t: string, maxLen: nat, x: string, front: seq<int>, u: nat, e: nat, h: nat, v: nat)
    requires CutAndReopened(t, maxLen, x, front, u, e, h)
    requires u <= |t| && (Stalled(t[u..], maxLen) <==> Stalled(x, maxLen))
    requires v <= |t| && OpensAt(t, v) && Stalled(t[v..], maxLen)
    ensures HasStall(x, maxLen)
  {
    hide Stalled, WellPlaced;
    if v < e {
      var k :| 0 <= k < |Fences(t, 0)| && !Odd(k) && Fences(t, 0)[k] == v;
      OpensInFront(t, maxLen, front, u, e, v, k);
      assert v == u && x[0..] == x;
      assert Fences(x, 0)[0] == 0;
      assert OpensAt(x, 0);
    } else {
      OpensBehindFencedCut(t, maxLen, x, front, u, e, h, v);
      assert x[v - e + h + 1..] == x[h + 1..][v - e..] == t[e..][v - e..] == t[v..];
    }
  }

  /** In front of a fenced cut, only the open block can stall. */
  lemma OpensInFront(t: string, maxLen: nat, front: seq<int>, u: nat, e: nat, v: nat, k: nat)
    requires Fences(t, 0) == front + [u as int] + Fences(t, e) && !Odd(|front|) && v < e && u + 3 <= maxLen
    requires forall k :: 0 <= k < |front| ==> 0 <= front[k] && FenceAt(t, front[k]) && front[k] + 3 <= u
    requires v <= |t| && k < |Fences(t, 0)| && !Odd(k) && Fences(t, 0)[k] == v && Stalled(t[v..], maxLen)
    ensures v == u
  {
    FencesAreFences(t, e);
    var n, all := |front|, Fences(t, 0);
    forall j | n < j < |all|
      ensures e <= all[j]
    {
      assert all[j] == Fences(t, e)[j - n - 1];
    }
    if k < n {
      FencesAscend(t, 0, k);
      assert k + 1 < n && Fences(t, 0)[k] == front[k] && Fences(t, 0)[k + 1] == front[k + 1];
      ClosedDoesNotStall(t, maxLen, v, front[k + 1]);
    } else {
      hide Stalled;
      assert k == n && all[n] == u;
    }
  }

  lemma StallCame(
    t: string, maxLen: nat, x: string, front: seq<int>, u: nat, e: nat, h: nat, w: nat)
    requires CutAndReopened(t, maxLen, x, front, u, e, h)
    requires u <= |t| && (Stalled(t[u..], maxLen) <==> Stalled(x, maxLen))
    requires w <= |x| && OpensAt(x, w) && Stalled(x[w..], maxLen)
    ensures HasStall(t, maxLen)
  {
    ReopenedFences(x, h, t[e..]);
    FencesAreFences(t[e..], 0);
    hide Stalled, WellPlaced, Fences;
    if w == 0 {
      assert x[0..] == x;
      assert Fences(t, 0)[|front|] == u;
      assert OpensAt(t, u);
    } else {
      var k :| 0 <= k < |Fences(x, 0)| && !Odd(k) && Fences(x, 0)[k] == w;
      assert w == Fences(t[e..], 0)[k - 1] + h + 1;
      var v := w - (h + 1) + e;
      OpensBehindFencedCut(t, maxLen, x, front, u, e, h, v);
      assert x[w..] == x[h + 1..][v - e..] == t[e..][v - e..] == t[v..];
    }
  }

  // The whole run

  lemma StepKeepsStalls(t: string, maxLen: nat)
    requires 10 <= maxLen < |t| && Clean(t)
    ensures var x := RestAfter(t, ChooseCut(t, maxLen)); Clean(x) && (HasStall(t, maxLen) <==> HasStall(x, maxLen))
  {
    var c := ChooseCut(t, maxLen);
    hide ChooseCut, RestAfter, HasStall;
    if c.Plain? {
      PlainKeepsStalls(t, maxLen);
      PlainStaysClean(t, c);
    } else {
      FencedKeepsStalls(t, maxLen, c);
      FencedRest(t, c);
    }
  }

  lemma PlainStaysClean(t: string, c: Cut)
    requires WellPlaced(t) && EndsInInk(t) && c.Plain? && c.end < |t|
    ensures Clean(RestAfter(t, c))
  {
    RestIsWellPlaced(t, c);
    var s := t[c.end..];
    LeadingIs(s, IsBlank);
    hide WellPlaced, Leading;
    var x := RestAfter(t, c);
    assert x != "" ==> x[|x| - 1] == t[|t| - 1];
  }

  lemma StallIsLong(t: string, maxLen: nat)
    requires HasStall(t, maxLen)
    ensures 5 <= maxLen < |t|
  {
  }

  lemma NextStalls(st: State, maxLen: nat)
    requires 10 <= maxLen && Clean(st.rest) && HasStall(st.rest, maxLen)
    ensures st.rest != "" && Clean(Next(st, maxLen).rest) && HasStall(Next(st, maxLen).rest, maxLen)
  {
    StallIsLong(st.rest, maxLen);
    StepKeepsStalls(st.rest, maxLen);
    hide ChooseCut, RestAfter, ChunkAt, HasStall, Clean;
  }

  lemma {:induction false} StallsForEver(st: State, maxLen: nat, n: nat)
    requires 10 <= maxLen && Clean(st.rest) && HasStall(st.rest, maxLen)
    ensures !Finishes(st, maxLen, n)
    decreases n
  {
    hide *;
    NextStalls(st, maxLen);
    if n != 0 {
      StallsForEver(Next(st, maxLen), maxLen, n - 1);
      OneMore(st, maxLen, n - 1);
    } else {
      NotYet(st, maxLen);
    }
  }

  lemma NotYet(st: State, maxLen: nat)
    requires 0 < maxLen && st.rest != ""
    ensures !Finishes(st, maxLen, 0)
  {
  }

  lemma StalledHasStall(t: string, maxLen: nat)
    requires Stalled(t, maxLen)
    ensures HasStall(t, maxLen)
  {
    assert Fences(t, 0)[0] == 0;
    assert t[0..] == t && OpensAt(t, 0);
  }

  lemma {:induction false} EndsWithoutStall(st: State, maxLen: nat)
    requires 10 <= maxLen && Clean(st.rest) && !HasStall(st.rest, maxLen)
    ensures Halts(st, maxLen)
    decreases |st.rest|
  {
    if |st.rest| <= maxLen {
      ShortHalts(st, maxLen);
    } else {
      var next := Next(st, maxLen);
      StepKeepsStalls(st.rest, maxLen);
      NoHeadwayStalls(st.rest, maxLen);
      hide ChooseCut, ChunkAt, RestAfter, Stalled, HasStall, WellPlaced, IsSpace, Halts;
      if |next.rest| < |st.rest| {
        EndsWithoutStall(next, maxLen);
      } else if |next.rest| <= maxLen {
        ShortHalts(next, maxLen);
      } else {
        if Stalled(next.rest, maxLen) {
          StalledHasStall(next.rest, maxLen);
        }
        StepKeepsStalls(next.rest, maxLen);
        EndsWithoutStall(Next(next, maxLen), maxLen);
        NextHalts(next, maxLen);
      }
      NextHalts(st, maxLen);
    }
  }

  lemma HaltsIffNothingStalls(st: State, maxLen: nat)
    requires 10 <= maxLen && Clean(st.rest)
    ensures Halts(st, maxLen) <==> !HasStall(st.rest, maxLen)
  {
    hide HasStall, Clean;
    if HasStall(st.rest, maxLen) {
      forall n
        ensures !Finishes(st, maxLen, n)
      {
        StallsForEver(st, maxLen, n);
      }
    } else {
      EndsWithoutStall(st, maxLen);
    }
  }

  /** A newline in front is gone after one iteration; it can shift the header of a fence right behind it. */
  function WithoutLeadingNewline(t: string, maxLen: nat): string
    requires 0 < maxLen
  {
    if maxLen < |t| && t[0] == '\n' then RestAfter(t, ChooseCut(t, maxLen)) else t
  }

  /**
   * For maxLen >= 10 and a message that does not end in white space and has well-placed fences, the loop ends if and
   * only if no block of the message opens with a header of at least maxLen - 6 runes, no other fence in the maxLen
   * runes from there on and more than maxLen runes left.
   */
  lemma EndsIffNothingStalls(t: string, maxLen: nat)
    requires 10 <= maxLen && WellPlaced(t) && EndsInInk(t)
    ensures Halts(State(t, []), maxLen) <==> !HasStall(WithoutLeadingNewline(t, maxLen), maxLen)
  {
    var st := State(t, []);
    if |t| <= maxLen {
      ShortHalts(st, maxLen);
      if HasStall(t, maxLen) {
        StallIsLong(t, maxLen);
      }
    } else if t[0] == '\n' {
      var next := Next(st, maxLen);
      AnyStepCleans(t, maxLen);
      HaltsIffNothingStalls(next, maxLen);
      HaltsIffNext(st, maxLen);
      hide Halts, HasStall, ChooseCut, RestAfter, Clean, ChunkAt;
    } else {
      HaltsIffNothingStalls(st, maxLen);
    }
  }

  lemma AnyStepCleans(t: string, maxLen: nat)
    requires 10 <= maxLen < |t| && WellPlaced(t) && EndsInInk(t)
    ensures Clean(RestAfter(t, ChooseCut(t, maxLen)))
  {
    var c := ChooseCut(t, maxLen);
    hide ChooseCut, RestAfter, WellPlaced, EndsInInk;
    if c.Plain? {
      PlainStaysClean(t, c);
    } else {
      FencedRest(t, c);
    }
  }

  lemma HaltsIffNext(st: State, maxLen: nat)
    requires 0 < maxLen && st.rest != ""
    ensures Halts(st, maxLen) <==> Halts(Next(st, maxLen), maxLen)
  {
    hide Next;
    if Halts(Next(st, maxLen), maxLen) {
      NextHalts(st, maxLen);
    }
    if Halts(st, maxLen) {
      var n: nat :| Finishes(st, maxLen, n);
      FinishesLater(st, maxLen, 1, n);
      RunOnce(st, maxLen, 0);
      assert Finishes(Next(st, maxLen), maxLen, n);
    }
  }

  // Messages that end in white space

  lemma TrimmedEndsInInk(header: string, tail: string)
    requires header != "" && header[0] == '`'
    ensures var x := TrimSpace(header + "\n" + tail); EndsInInk(x) && (x != "" ==> x[0] == '`')
  {
    var y := header + "\n" + tail;
    assert y[0] == '`';
    BacktickIsInk();
    TrimSpaceFromInk(y);
    KeptIs(y, IsSpace);
    hide TrimSpace, Kept, IsSpace;
  }

  /** A fenced cut trims the white space at the end of the message. */
  lemma FencedCutCleans(t: string, c: Cut)
    requires WellPlaced(t) && InBlock(t, c)
    ensures Clean(RestAfter(t, c))
  {
    RestIsWellPlaced(t, c);
    hide WellPlaced, HeaderLength, TrimSpace, IsSpace, EndsInInk;
    TrimmedEndsInInk(t[c.open..c.open + c.header], t[c.end..]);
  }

  /** What is left behind the first cut inside a block, or in the end. */
  function Settled(t: string, maxLen: nat): string
    requires 0 < maxLen
    decreases |t|
  {
    if |t| <= maxLen then t
    else
      var c := ChooseCut(t, maxLen);
      PlainShrinks(t, c);
      if c.Fenced? then RestAfter(t, c) else Settled(RestAfter(t, c), maxLen)
  }

  /**
   * For maxLen >= 10 and any message with well-placed fences, the loop ends if and only if no block stalls behind the
   * first cut inside a block: that cut trims the white space at the end, which the blocks behind it no longer have.
   */
  lemma {:induction false} EndsIffSettledEnds(st: State, maxLen: nat)
    requires 10 <= maxLen && WellPlaced(st.rest)
    ensures Halts(st, maxLen) <==> !HasStall(Settled(st.rest, maxLen), maxLen)
    decreases |st.rest|
  {
    var t := st.rest;
    hide HasStall, Halts, WellPlaced, Clean;
    if |t| <= maxLen {
      ShortHalts(st, maxLen);
      if HasStall(t, maxLen) {
        StallIsLong(t, maxLen);
      }
    } else {
      var c, next := ChooseCut(t, maxLen), Next(st, maxLen);
      HaltsIffNext(st, maxLen);
      RestIsWellPlaced(t, c);
      PlainShrinks(t, c);
      hide ChooseCut, RestAfter, ChunkAt;
      if c.Fenced? {
        FencedCutCleans(t, c);
        HaltsIffNothingStalls(next, maxLen);
      } else {
        EndsIffSettledEnds(next, maxLen);
      }
    }
  }
}
