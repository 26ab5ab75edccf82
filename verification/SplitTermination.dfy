/** Length of the chunks, and exactly when the splitter's loop ends. */
module SplitTermination {
  import opened Text
  import opened SplitScan
  import opened Splitter

  lemma ChunkFits(t: string, maxLen: nat)
    requires 0 < maxLen < |t|
    ensures |ChunkAt(t, ChooseCut(t, maxLen))| <= maxLen - (if ChooseCut(t, maxLen).Fenced? then 1 else 0)
  {
  }

  /** No chunk is longer than maxLen, whatever the text and however far the loop has come. */
  lemma {:induction false} ChunksFit(st: State, maxLen: nat, n: nat)
    requires 0 < maxLen
    requires forall i :: 0 <= i < |st.chunks| ==> |st.chunks[i]| <= maxLen
    ensures forall i :: 0 <= i < |Run(st, maxLen, n).chunks| ==> |Run(st, maxLen, n).chunks[i]| <= maxLen
    decreases n
  {
    hide ChooseCut, ChunkAt, RestAfter;
    if n != 0 && st.rest != "" {
      if maxLen < |st.rest| {
        ChunkFits(st.rest, maxLen);
      }
      ChunksFit(Next(st, maxLen), maxLen, n - 1);
    }
  }

  /** Every code fence, wherever three backticks stand, has a header of at most bound runes. */
  ghost predicate HeadersFit(t: string, bound: int) {
    forall i :: 0 <= i && FenceAt(t, i) ==> HeaderLength(t, i) <= bound
  }

  /** A cut inside a block that is not the last resort lies well behind the header. */
  lemma InnerCutIsFar(t: string, maxLen: nat, u: nat)
    requires 0 < maxLen < |t| && FenceAt(t, u)
    requires HeaderEnd(t, u) + 20 < NaturalCut(t, EffectiveLimit(maxLen))
    ensures var b := LastIn(t[..maxLen - 5], 200, IsNewline);
            HeaderEnd(t, u) < b ==> HeaderEnd(t, u) + 20 < b && NaturalCut(t, EffectiveLimit(maxLen)) <= b
  {
    hide HeaderEnd, LastIn;
    var e := EffectiveLimit(maxLen);
    LastInIsLast(t[..maxLen - 5], 200, IsNewline);
    LastInIsLast(t[..e], 200, IsNewline);
    var b := LastIn(t[..maxLen - 5], 200, IsNewline);
    var n := LastIn(t[..e], 200, IsNewline);
    assert 0 < b < e ==> t[..e][b] == '\n' && b <= n;
    assert 0 <= n ==> t[..maxLen - 5][n] == '\n';
  }

  /** Where a fenced cut falls: behind the header by more than its own length, or at the limit. */
  lemma FencedCutIsFar(t: string, maxLen: nat)
    requires 0 < maxLen < |t|
    ensures var c := ChooseCut(t, maxLen); c.Fenced? ==> c.header + 20 < c.end || c.end == maxLen - 5
  {
    hide LastIn, HeaderLength, HeaderEnd, NaturalCut, EffectiveLimit, CutBefore, FirstFence;
    var m := NaturalCut(t, EffectiveLimit(maxLen));
    var u := LastUnclosed(t[..m]);
    UnclosedInside(t, m);
    hide LastUnclosed;
    if 0 <= u && HeaderEnd(t, u) + 20 < m {
      InnerCutIsFar(t, maxLen, u);
    }
  }

  lemma RestShrinks(t: string, maxLen: nat)
    requires 10 <= maxLen < |t| && HeadersFit(t, maxLen - 7)
    ensures |RestAfter(t, ChooseCut(t, maxLen))| < |t|
  {
    FencedCutIsFar(t, maxLen);
    hide ChooseCut, Kept, Leading;
  }

  /** Limits below five leave no room for a closing fence: every cut is a plain one, and the loop ends. */
  lemma {:induction false} SmallLimitsEnd(st: State, maxLen: nat)
    requires 0 < maxLen < 5
    ensures Finishes(st, maxLen, |st.rest|)
    decreases |st.rest|
  {
    hide ChunkAt, ChooseCut, Leading;
    if st.rest != "" {
      var next := Next(st, maxLen);
      RunOnce(st, maxLen, |st.rest| - 1);
      if maxLen < |st.rest| {
        assert ChooseCut(st.rest, maxLen).Plain?;
        SmallLimitsEnd(next, maxLen);
        FinishedStays(next, maxLen, |next.rest|, |st.rest| - 1);
      }
    }
  }

  lemma HeadersFitSuffix(t: string, k: nat, bound: int)
    requires k <= |t| && HeadersFit(t, bound)
    ensures HeadersFit(t[k..], bound)
  {
    hide HeaderLength, HeaderEnd;
    forall i | 0 <= i && FenceAt(t[k..], i)
      ensures HeaderLength(t[k..], i) <= bound
    {
      SuffixHeader(t, k, i);
    }
  }

  /** Cutting the end of a text off makes no header longer. */
  lemma HeadersFitPrefix(t: string, k: nat, bound: int)
    requires k <= |t| && HeadersFit(t, bound) && 3 <= bound
    ensures HeadersFit(t[..k], bound)
  {
    forall i | 0 <= i && FenceAt(t[..k], i)
      ensures HeaderLength(t[..k], i) <= bound
    {
      assert FenceAt(t, i) && HeaderLength(t, i) <= bound;
      assert t[..k][i..] == t[i..][..k - i];
      TrimmedPrefix(t[i..], k - i);
    }
  }

  lemma TrimmedPrefix(s: string, k: nat)
    requires k <= |s| && FenceAt(s, 0) && FenceAt(s[..k], 0)
    ensures TrimmedLine(s[..k]) == 3 || TrimmedLine(s[..k]) == TrimmedLine(s)
  {
    var n := FirstNewline(s[..k]);
    if 0 <= n {
      FirstNewlineIsFirst(s[..k]);
      FirstNewlineIs(s, n);
      assert s[..k][..n] == s[..n];
    }
  }

  /** A header line in front of a text adds no header longer than itself. */
  lemma HeadersFitReopened(header: string, t: string, bound: int)
    requires HeadersFit(t, bound) && |header| <= bound && 3 <= bound
    requires forall i :: 0 <= i < |header| ==> header[i] != '\n'
    ensures HeadersFit(header + "\n" + t, bound)
  {
    var x := header + "\n" + t;
    forall i | 0 <= i && FenceAt(x, i)
      ensures HeaderLength(x, i) <= bound
    {
      hide HeaderLength;
      if i <= |header| {
        HeaderOfReopened(header, t, i);
      } else {
        var j := i - |header| - 1;
        assert t == x[|header| + 1..];
        assert FenceAt(t, j);
        SuffixHeader(x, |header| + 1, j);
      }
    }
  }

  lemma HeaderOfReopened(header: string, t: string, i: nat)
    requires i <= |header| && FenceAt(header + "\n" + t, i)
    requires forall k :: 0 <= k < |header| ==> header[k] != '\n'
    ensures HeaderLength(header + "\n" + t, i) <= |header| - i
  {
    var s := (header + "\n" + t)[i..];
    FirstNewlineIs(s, |header| - i);
    hide FirstNewline, Kept;
  }

  lemma HeadersStayFit(t: string, maxLen: nat)
    requires 10 <= maxLen < |t| && HeadersFit(t, maxLen - 7)
    ensures HeadersFit(RestAfter(t, ChooseCut(t, maxLen)), maxLen - 7)
  {
    var c := ChooseCut(t, maxLen);
    hide *;
    if c.Plain? {
      PlainRestFits(t, c, maxLen - 7);
    } else {
      FencedRestFits(t, c, maxLen - 7);
    }
  }

  lemma PlainRestFits(t: string, c: Cut, bound: nat)
    requires c.Plain? && c.end <= |t| && HeadersFit(t, bound)
    ensures HeadersFit(RestAfter(t, c), bound)
  {
    hide HeadersFit, Leading;
    HeadersFitSuffix(t, c.end, bound);
    HeadersFitSuffix(t[c.end..], Leading(t[c.end..], IsBlank), bound);
  }

  lemma FencedRestFits(t: string, c: Cut, bound: nat)
    requires c.Fenced? && c.end <= |t| && FenceAt(t, c.open) && c.header == HeaderLength(t, c.open)
    requires HeadersFit(t, bound)
    ensures HeadersFit(RestAfter(t, c), bound)
  {
    var header := t[c.open..c.open + c.header];
    assert c.header <= bound && header[0] == '`' && RestAfter(t, c) == TrimSpace(header + "\n" + t[c.end..]);
    hide *;
    HeaderInLine(t, c.open);
    HeadersFitSuffix(t, c.end, bound);
    ReopenedRestFits(header, t[c.end..], bound);
  }

  lemma ReopenedRestFits(header: string, t: string, bound: int)
    requires HeadersFit(t, bound) && 3 <= |header| <= bound && header[0] == '`'
    requires forall i :: 0 <= i < |header| ==> header[i] != '\n'
    ensures HeadersFit(TrimSpace(header + "\n" + t), bound)
  {
    var x := header + "\n" + t;
    hide HeadersFit;
    HeadersFitReopened(header, t, bound);
    TrimSpaceFromInk(x);
    HeadersFitPrefix(x, Kept(x, IsSpace), bound);
  }

  /**
   * From 10 runes on, and with headers of at most maxLen - 7 runes, every iteration makes the rest shorter,
   * although two branches put a header back in front of it: the loop ends within |rest| iterations.
   */
  lemma {:induction false} SplitterEnds(st: State, maxLen: nat)
    requires 10 <= maxLen && HeadersFit(st.rest, maxLen - 7)
    ensures Finishes(st, maxLen, |st.rest|)
    decreases |st.rest|
  {
    hide ChooseCut, ChunkAt, RestAfter, HeadersFit;
    if st.rest != "" {
      var next := Next(st, maxLen);
      RunOnce(st, maxLen, |st.rest| - 1);
      if maxLen < |st.rest| {
        RestShrinks(st.rest, maxLen);
        HeadersStayFit(st.rest, maxLen);
        SplitterEnds(next, maxLen);
        FinishedStays(next, maxLen, |next.rest|, |st.rest| - 1);
      }
    }
  }

  lemma {:induction false} FinishedStays(st: State, maxLen: nat, n: nat, k: nat)
    requires 0 < maxLen && n <= k && Finishes(st, maxLen, n)
    ensures Run(st, maxLen, k) == Run(st, maxLen, n)
    decreases n
  {
    hide Next;
    if st.rest != "" {
      FinishedStays(Next(st, maxLen), maxLen, n - 1, k - 1);
    }
  }

  /**
   * A text too long for one chunk that starts with a code fence whose header does not fit, with no other fence
   * within the first maxLen runes.
   */
  ghost predicate Stalled(t: string, maxLen: nat) {
    && 5 <= maxLen < |t| && FenceAt(t, 0) && maxLen - 6 <= HeaderLength(t, 0) && !IsSpace(t[|t| - 1])
    && forall i :: 0 < i <= maxLen - 3 ==> !FenceAt(t, i)
  }

  lemma OnlyFence(t: string, maxLen: nat, m: nat)
    requires Stalled(t, maxLen) && 3 <= m <= maxLen
    ensures LastUnclosed(t[..m]) == 0
    ensures var f := FirstFence(t[m..], 0); f == -1 || maxLen < m + f + 3
  {
    var s := t[..m];
    assert forall i :: 3 <= i && FenceAt(s, i) ==> FenceAt(t, i);
    NoFencesFrom(s, 3);
    assert Fences(s, 0) == [0] + Fences(s, 3);
    var f := FirstFence(t[m..], 0);
    FirstFenceIsFirst(t[m..], 0);
    assert 0 <= f ==> FenceAt(t, m + f);
  }

  /** A natural cut in front of the first newline leaves room for a fence. */
  lemma CutBehindFence(t: string, limit: nat)
    requires 3 <= limit <= |t| && FenceAt(t, 0)
    ensures 3 <= NaturalCut(t, limit)
  {
    LastInIsLast(t[..limit], 200, IsNewline);
    LastInIsLast(t[..limit], 100, IsSpaceOrTab);
    hide LastIn;
    assert t[..limit][0] == '`' && t[..limit][1] == '`' && t[..limit][2] == '`';
  }

  /** A header that does not fit sends the loop to its last resort. */
  lemma LastResort(t: string, maxLen: nat)
    requires Stalled(t, maxLen)
    ensures ChooseCut(t, maxLen) == Fenced(maxLen - 5, 0, HeaderLength(t, 0))
  {
    var e := EffectiveLimit(maxLen);
    CutBehindFence(t, e);
    var m := NaturalCut(t, e);
    OnlyFence(t, maxLen, m);
    assert CutBefore(t, 0) <= 0;
    hide HeaderLength, HeaderEnd, LastUnclosed, FirstFence, FirstNewline, NaturalCut, LastIn, CutBefore, EffectiveLimit;
  }

  lemma ReopenedHeader(header: string, tail: string)
    requires FenceAt(header, 0) && !IsSpace(header[|header| - 1])
    requires forall i :: 0 <= i < |header| ==> header[i] != '\n'
    ensures var x := header + "\n" + tail;
            FenceAt(x, 0) && 0 <= FirstNewline(x) && HeaderLength(x, 0) == |header|
  {
    var x := header + "\n" + tail;
    FirstNewlineIs(x, |header|);
    assert x[0..] == x && x[0..|header|] == header;
  }

  lemma RestOfLastResort(t: string, maxLen: nat)
    requires Stalled(t, maxLen)
    ensures RestAfter(t, ChooseCut(t, maxLen)) == t[..HeaderLength(t, 0)] + "\n" + t[maxLen - 5..]
  {
    LastResort(t, maxLen);
    hide ChooseCut, HeaderLength;
    var h := HeaderLength(t, 0);
    var x := t[..h] + "\n" + t[maxLen - 5..];
    assert t[0..h] == t[..h];
    assert x[|x| - 1] == t[|t| - 1];
    TrimSpaceFromInk(x);
  }

  lemma HeaderIsInk(t: string, u: nat)
    requires FenceAt(t, u)
    ensures var h := HeaderLength(t, u); !IsSpace(t[u + h - 1]) && forall i :: u <= i < u + h ==> t[i] != '\n'
  {
    HeaderInLine(t, u);
    if 0 <= FirstNewline(t[u..]) {
      TrimmedLineIs(t[u..]);
    }
  }

  /** Putting the header back brings no fence within reach. */
  lemma NoFenceInReach(t: string, maxLen: nat, h: nat)
    requires 5 <= maxLen <= |t| && 3 <= h <= |t| && maxLen - 6 <= h
    requires forall i :: 0 < i <= maxLen - 3 ==> !FenceAt(t, i)
    ensures var x := t[..h] + "\n" + t[maxLen - 5..]; forall i :: 0 < i <= maxLen - 3 ==> !FenceAt(x, i)
  {
    var x := t[..h] + "\n" + t[maxLen - 5..];
    forall i | 0 < i <= maxLen - 3
      ensures !FenceAt(x, i)
    {
      if FenceAt(x, i) {
        if i < h {
          assert FenceAt(t, i);
        } else {
          assert FenceAt(t, maxLen - 5 + (i - h - 1));
        }
      }
    }
  }

  /** The text after a last resort is no shorter, with the same header in front. */
  lemma ReopenedIsStalled(t: string, maxLen: nat)
    requires Stalled(t, maxLen)
    ensures var x := t[..HeaderLength(t, 0)] + "\n" + t[maxLen - 5..]; Stalled(x, maxLen) && |t| <= |x|
  {
    var h := HeaderLength(t, 0);
    HeaderIsInk(t, 0);
    var x := t[..h] + "\n" + t[maxLen - 5..];
    assert x[|x| - 1] == t[|t| - 1];
    assert FenceAt(t[..h], 0);
    hide FirstNewline, IsSpace, FenceAt, HeaderLength;
    NoFenceInReach(t, maxLen, h);
    ReopenedHeader(t[..h], t[maxLen - 5..]);
  }

  /** A last resort is followed by a last resort: the loop makes no headway. */
  lemma StaysStalled(st: State, maxLen: nat)
    requires Stalled(st.rest, maxLen)
    ensures Stalled(Next(st, maxLen).rest, maxLen)
  {
    RestOfLastResort(st.rest, maxLen);
    ReopenedIsStalled(st.rest, maxLen);
    hide ChooseCut, ChunkAt, RestAfter, HeaderLength;
  }

  lemma {:induction false} NeverEnds(st: State, maxLen: nat, n: nat)
    requires Stalled(st.rest, maxLen)
    ensures !Finishes(st, maxLen, n)
    decreases n
  {
    hide *;
    StalledGoesOn(st, maxLen);
    if n != 0 {
      RunOnce(st, maxLen, n - 1);
      NeverEnds(Next(st, maxLen), maxLen, n - 1);
      OneMore(st, maxLen, n - 1);
    }
  }

  lemma StalledGoesOn(st: State, maxLen: nat)
    requires Stalled(st.rest, maxLen)
    ensures st.rest != "" && 0 < maxLen && Stalled(Next(st, maxLen).rest, maxLen) && !Finishes(st, maxLen, 0)
  {
    StaysStalled(st, maxLen);
    hide Next, HeaderLength;
  }

  lemma OneMore(st: State, maxLen: nat, n: nat)
    requires 0 < maxLen && st.rest != ""
    ensures Finishes(st, maxLen, n + 1) == Finishes(Next(st, maxLen), maxLen, n)
  {
    RunOnce(st, maxLen, n);
    hide Run, Next;
  }

  /** With a limit of 5, a fence at the front is cut off in front of itself, and put back. */
  lemma FrontFenceStays(t: string)
    requires 5 < |t| && FenceAt(t, 0)
    ensures ChooseCut(t, 5) == Fenced(0, 0, HeaderLength(t, 0))
  {
    CutBehindFence(t, 3);
    var m := NaturalCut(t, 3);
    assert EffectiveLimit(5) == 3 && m == 3;
    var s := t[..3];
    assert FenceAt(s, 0) && Fences(s, 3) == [];
    assert Fences(s, 0) == [0] + Fences(s, 3);
    assert LastUnclosed(s) == 0;
    assert CutBefore(t, 0) <= 0;
    FirstFenceIsFirst(t[3..], 0);
    hide HeaderLength, HeaderEnd, LastUnclosed, FirstFence, FirstNewline, NaturalCut, LastIn, CutBefore, EffectiveLimit,
      Fences;
  }

  lemma BehindHeader(header: string, t: string, i: nat)
    requires i < |t|
    ensures (header + "\n" + t)[|header| + 1 + i] == t[i] && |header + "\n" + t| == |header| + 1 + |t|
  {
  }

  lemma GrownText(header: string, t: string, u: nat)
    requires FenceAt(header, 0) && u < |t| && t[u] == '`'
    ensures var x := TrimSpace(header + "\n" + t); 5 < |x| + 1 - u && FenceAt(x, 0) && |header| + 1 < |x|
  {
    var x := header + "\n" + t;
    BehindHeader(header, t, u);
    assert x[0] == '`' && x[1] == '`' && x[2] == '`';
    TrimSpaceFromInk(x);
    KeptCovers(x, IsSpace, |header| + 1 + u);
    hide TrimSpace, Kept;
  }

  lemma EmptyCutGrows(t: string, c: Cut)
    requires 5 < |t| && c.Fenced? && c.end == 0 && FenceAt(t, c.open) && c.header == HeaderLength(t, c.open)
    ensures 5 < |RestAfter(t, c)| && FenceAt(RestAfter(t, c), 0)
  {
    hide HeaderLength, TrimSpace;
    var header := t[c.open..c.open + c.header];
    assert t[0..] == t && t[c.open + 2] == '`';
    GrownText(header, t, c.open + 2);
  }

  lemma {:induction false} FrontFenceNeverEnds(st: State, n: nat)
    requires 5 < |st.rest| && FenceAt(st.rest, 0)
    ensures !Finishes(st, 5, n)
    decreases n
  {
    FrontFenceStays(st.rest);
    EmptyCutGrows(st.rest, Fenced(0, 0, HeaderLength(st.rest, 0)));
    hide ChooseCut, RestAfter, ChunkAt, HeaderLength, FenceAt;
    if n != 0 {
      FrontFenceNeverEnds(Next(st, 5), n - 1);
      OneMore(st, 5, n - 1);
    }
  }

  /** With a limit of 5, a fenced cut sends nothing but a closing fence, and so do all that follow. */
  lemma EmptyCutNeverEnds(st: State, n: nat)
    requires 5 < |st.rest| && ChooseCut(st.rest, 5).Fenced?
    ensures !Finishes(st, 5, n)
  {
    var c := ChooseCut(st.rest, 5);
    EmptyCutGrows(st.rest, c);
    hide ChooseCut, RestAfter, ChunkAt, HeaderLength, FenceAt;
    if n != 0 {
      FrontFenceNeverEnds(Next(st, 5), n - 1);
      OneMore(st, 5, n - 1);
    }
  }

  /** A text that starts with a code fence, has no other, has a newline and ends in ink. */
  ghost predicate OneOpenBlock(t: string) {
    && FenceAt(t, 0) && (forall i :: 0 < i ==> !FenceAt(t, i))
    && 0 <= FirstNewline(t) && !IsSpace(t[|t| - 1])
  }

  /**
   * For a single code block that is never closed, the loop ends if and only if the text fits in one chunk or
   * its header has at most maxLen - 7 runes; otherwise every iteration sends one more chunk, for ever.
   */
  lemma EndsIffHeaderFits(t: string, maxLen: nat)
    requires OneOpenBlock(t) && 5 <= maxLen
    ensures Halts(State(t, []), maxLen) <==> |t| <= maxLen || HeaderLength(t, 0) <= maxLen - 7
  {
    var st := State(t, []);
    hide HeaderLength, ChooseCut, ChunkAt, RestAfter;
    if |t| <= maxLen {
      RunOnce(st, maxLen, 0);
      assert Finishes(st, maxLen, 1);
    } else if HeaderLength(t, 0) <= maxLen - 7 {
      SplitterEnds(st, maxLen);
    } else {
      forall n
        ensures !Finishes(st, maxLen, n)
      {
        NeverEnds(st, maxLen, n);
      }
    }
  }
}
