/** For well-placed code fences: the splitter's loop ends exactly if it never stalls. */
module SplitExact {
  import opened Text
  import opened SplitScan
  import opened Splitter
  import opened SplitTermination
  import opened SplitFences

  /** A header that stands alone has lost its line end: the next one is three runes long. */
  lemma HeaderAlone(x: string, maxLen: nat)
    requires 10 <= maxLen < |x| && (forall i :: 0 <= i < |x| ==> x[i] != '\n')
    ensures |RestAfter(x, ChooseCut(x, maxLen))| < |x|
  {
    forall i | 0 <= i && FenceAt(x, i)
      ensures HeaderLength(x, i) <= maxLen - 7
    {
      FirstNewlineIsFirst(x[i..]);
    }
    hide HeaderLength;
    RestShrinks(x, maxLen);
  }

  /** The first fence behind the opening one, if it is in reach. */
  lemma FirstInReach(x: string, maxLen: nat) returns (i: nat)
    requires exists i :: 0 < i <= maxLen - 3 && FenceAt(x, i)
    ensures 0 < i <= maxLen - 3 && FenceAt(x, i) && forall k :: 0 < k < i ==> !FenceAt(x, k)
  {
    i := 1;
    while !FenceAt(x, i)
      invariant 0 < i <= maxLen - 3
      invariant forall k :: 0 < k < i ==> !FenceAt(x, k)
      invariant exists k :: i <= k <= maxLen - 3 && FenceAt(x, k)
      decreases maxLen - i
    {
      i := i + 1;
    }
  }

  /** A block that closes in reach behind a header that does not fit: the next cut comes behind the closing fence. */
  lemma ClosesInReach(x: string, maxLen: nat, i: nat)
    requires 10 <= maxLen < |x| && FenceAt(x, 0) && FenceAt(x, i) && maxLen - 5 <= i <= maxLen - 3
    requires forall k :: 0 < k < i ==> !FenceAt(x, k)
    ensures ChooseCut(x, maxLen) == Plain(i + 3)
  {
    var e := EffectiveLimit(maxLen);
    CutBehindFence(x, e);
    var m := NaturalCut(x, e);
    hide NaturalCut, EffectiveLimit, LastIn;
    var s := x[..m];
    forall k | 3 <= k
      ensures !FenceAt(s, k)
    {
      assert FenceAt(s, k) ==> FenceAt(x, k);
    }
    NoFencesFrom(s, 3);
    assert Fences(s, 0) == [0] + Fences(s, 3);
    assert LastUnclosed(s) == 0;
    FirstFenceFrom(x, m, i);
    hide LastUnclosed, FirstFence, OpenCut, Fences;
  }

  lemma FirstFenceFrom(x: string, m: nat, i: nat)
    requires 0 < m <= i && FenceAt(x, i) && forall k :: 0 < k < i ==> !FenceAt(x, k)
    ensures m + FirstFence(x[m..], 0) == i
  {
    var f := FirstFence(x[m..], 0);
    FirstFenceIsFirst(x[m..], 0);
    assert FenceAt(x[m..], i - m);
    assert 0 <= f ==> FenceAt(x, m + f);
  }

  /** The text a last resort leaves, and what stands where in it. */
  ghost predicate Reopened(x: string, h: nat) {
    && 3 <= h < |x| && FenceAt(x, 0) && x[h] == '\n' && !IsSpace(x[h - 1]) && !IsSpace(x[|x| - 1])
    && forall i :: 0 <= i < h ==> x[i] != '\n'
  }

  lemma ReopenedLength(x: string, h: nat)
    requires Reopened(x, h)
    ensures HeaderLength(x, 0) == h
  {
    assert x == x[..h] + "\n" + x[h + 1..];
    assert FenceAt(x[..h], 0);
    hide HeaderLength, FirstNewline, IsSpace, FenceAt;
    ReopenedHeader(x[..h], x[h + 1..]);
  }

  /** If such a text does not stall, the next cut takes the header and a closing fence off. */
  lemma NotStalled(x: string, maxLen: nat, h: nat)
    requires 10 <= maxLen < |x| && WellPlaced(x) && Reopened(x, h) && maxLen - 6 <= h && !Stalled(x, maxLen)
    ensures |RestAfter(x, ChooseCut(x, maxLen))| <= |x| - h - 4
  {
    ReopenedLength(x, h);
    hide HeaderLength;
    assert exists i :: 0 < i <= maxLen - 3 && FenceAt(x, i);
    var i := FirstInReach(x, maxLen);
    assert WellPlacedAt(x, i);
    assert h < i;
    ClosesInReach(x, maxLen, i);
    hide ChooseCut, Leading;
  }

  /** Trimming takes nothing off the header. */
  lemma TrimmedReopened(header: string, tail: string)
    requires 3 <= |header| && header[0] == '`' && !IsSpace(header[|header| - 1])
    ensures var x := TrimSpace(header + "\n" + tail);
      && |header| <= |x| <= |header| + 1 + |tail| && x == (header + "\n" + tail)[..|x|] && !IsSpace(x[|x| - 1])
  {
    var y := header + "\n" + tail;
    TrimSpaceFromInk(y);
    KeptCovers(y, IsSpace, |header| - 1);
    KeptIs(y, IsSpace);
    hide Kept, IsSpace, TrimSpace;
  }

  lemma TrimmedShape(header: string, tail: string)
    requires FenceAt(header, 0) && !IsSpace(header[|header| - 1])
    requires forall i :: 0 <= i < |header| ==> header[i] != '\n'
    ensures var x, h := TrimSpace(header + "\n" + tail), |header|;
      && h <= |x| <= h + 1 + |tail|
      && (|x| == h ==> forall i :: 0 <= i < |x| ==> x[i] != '\n')
      && (h < |x| ==> Reopened(x, h))
  {
    TrimmedReopened(header, tail);
    hide TrimSpace, IsSpace;
    var x, y := TrimSpace(header + "\n" + tail), header + "\n" + tail;
    assert forall i :: 0 <= i < |header| ==> x[i] == y[i] == header[i];
  }

  /** The text that is left by a fenced cut. */
  lemma AfterFencedCut(t: string, c: Cut)
    requires c.Fenced? && c.end < |t| && FenceAt(t, c.open) && c.header == HeaderLength(t, c.open)
    ensures var x, h := RestAfter(t, c), c.header;
      && h <= |x| <= h + 1 + |t| - c.end
      && (|x| == h ==> forall i :: 0 <= i < |x| ==> x[i] != '\n')
      && (h < |x| ==> Reopened(x, h))
  {
    var h, u := c.header, c.open;
    HeaderIsInk(t, u);
    hide HeaderLength, TrimSpace, IsSpace, Reopened;
    var header := t[u..u + h];
    assert forall i :: 0 <= i < h ==> header[i] == t[u + i];
    TrimmedShape(header, t[c.end..]);
  }

  lemma PlainShrinks(t: string, c: Cut)
    requires c.Plain? ==> 0 < c.end <= |t|
    requires c.Fenced? ==> c.end <= |t| && c.open + c.header <= |t|
    ensures c.Plain? ==> |RestAfter(t, c)| < |t|
  {
  }

  /** An iteration that does not shorten the text stalls, or is followed by one that does, or by the last chunk. */
  lemma NoHeadwayStalls(t: string, maxLen: nat)
    requires 10 <= maxLen < |t| && WellPlaced(t)
    ensures var x := RestAfter(t, ChooseCut(t, maxLen));
      |x| < |t| || |x| <= maxLen || Stalled(x, maxLen) || |RestAfter(x, ChooseCut(x, maxLen))| < |t|
  {
    var c := ChooseCut(t, maxLen);
    FencedCutIsFar(t, maxLen);
    RestIsWellPlaced(t, c);
    PlainShrinks(t, c);
    if c.Plain? {
      return;
    }
    AfterFencedCut(t, c);
    var x, h := RestAfter(t, c), c.header;
    hide ChooseCut, RestAfter, Stalled, WellPlaced, Reopened, HeaderLength, FenceAt;
    if maxLen < |x| && |t| <= |x| {
      if |x| == h {
        HeaderAlone(x, maxLen);
      } else if !Stalled(x, maxLen) {
        NotStalled(x, maxLen, h);
      }
    }
  }

  ghost predicate NeverStalls(st: State, maxLen: nat)
    requires 0 < maxLen
  {
    forall n :: !StallsAfter(st, maxLen, n)
  }

  ghost predicate StallsAfter(st: State, maxLen: nat, n: nat)
    requires 0 < maxLen
  {
    Stalled(Run(st, maxLen, n).rest, maxLen)
  }

  lemma NextNeverStalls(st: State, maxLen: nat)
    requires 10 <= maxLen && st.rest != "" && NeverStalls(st, maxLen)
    ensures NeverStalls(Next(st, maxLen), maxLen) && !Stalled(Next(st, maxLen).rest, maxLen)
  {
    hide Next, Stalled;
    var next := Next(st, maxLen);
    forall n: nat
      ensures !StallsAfter(next, maxLen, n)
    {
      RunOnce(st, maxLen, n);
      assert !StallsAfter(st, maxLen, n + 1);
    }
    assert Run(next, maxLen, 0) == next;
    assert !StallsAfter(next, maxLen, 0);
  }

  lemma NextHalts(st: State, maxLen: nat)
    requires 0 < maxLen && st.rest != "" && Halts(Next(st, maxLen), maxLen)
    ensures Halts(st, maxLen)
  {
    hide Next;
    var n: nat :| Finishes(Next(st, maxLen), maxLen, n);
    RunOnce(st, maxLen, n);
    assert Finishes(st, maxLen, n + 1);
  }

  lemma ShortHalts(st: State, maxLen: nat)
    requires 0 < maxLen && |st.rest| <= maxLen
    ensures Halts(st, maxLen)
  {
    if st.rest != "" {
      RunOnce(st, maxLen, 0);
    }
    assert Finishes(st, maxLen, 1);
  }

  lemma {:induction false} EndsUnlessStalled(st: State, maxLen: nat)
    requires 10 <= maxLen && WellPlaced(st.rest) && NeverStalls(st, maxLen)
    ensures Halts(st, maxLen)
    decreases |st.rest|
  {
    if |st.rest| <= maxLen {
      ShortHalts(st, maxLen);
    } else {
      var next := Next(st, maxLen);
      RestIsWellPlaced(st.rest, ChooseCut(st.rest, maxLen));
      NextNeverStalls(st, maxLen);
      if |st.rest| <= |next.rest| {
        NoHeadwayStalls(st.rest, maxLen);
      }
      hide ChooseCut, ChunkAt, RestAfter, Stalled, WellPlaced, NeverStalls, Halts;
      if |next.rest| < |st.rest| {
        EndsUnlessStalled(next, maxLen);
      } else if |next.rest| <= maxLen {
        ShortHalts(next, maxLen);
      } else {
        RestIsWellPlaced(next.rest, ChooseCut(next.rest, maxLen));
        NextNeverStalls(next, maxLen);
        EndsUnlessStalled(Next(next, maxLen), maxLen);
        NextHalts(next, maxLen);
      }
      NextHalts(st, maxLen);
    }
  }

  /** For maxLen >= 10 and well-placed fences: the loop ends if and only if no iteration of it stalls. */
  lemma HaltsIffNeverStalls(st: State, maxLen: nat)
    requires 10 <= maxLen && WellPlaced(st.rest)
    ensures Halts(st, maxLen) <==> NeverStalls(st, maxLen)
  {
    hide Stalled, WellPlaced, Next, Finishes;
    if NeverStalls(st, maxLen) {
      EndsUnlessStalled(st, maxLen);
    }
    if Halts(st, maxLen) {
      var k: nat :| Finishes(st, maxLen, k);
      forall n: nat
        ensures !StallsAfter(st, maxLen, n)
      {
        FinishesLater(st, maxLen, n, k);
        if StallsAfter(st, maxLen, n) {
          NeverEnds(Run(st, maxLen, n), maxLen, k);
        }
      }
    }
  }

  /** A loop that ends also ends from any of its states. */
  lemma FinishesLater(st: State, maxLen: nat, n: nat, k: nat)
    requires 0 < maxLen && Finishes(st, maxLen, k)
    ensures Finishes(Run(st, maxLen, n), maxLen, k)
  {
    hide Run;
    FinishedStays(st, maxLen, k, n + k);
    RunAdds(st, maxLen, n, k);
  }

  lemma {:induction false} RunAdds(st: State, maxLen: nat, n: nat, k: nat)
    requires 0 < maxLen
    ensures Run(st, maxLen, n + k) == Run(Run(st, maxLen, n), maxLen, k)
    decreases n
  {
    hide Next;
    if n != 0 && st.rest != "" {
      RunAdds(Next(st, maxLen), maxLen, n - 1, k);
    }
  }
}
