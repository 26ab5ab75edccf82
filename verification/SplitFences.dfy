/** No chunk but the last leaves a code block open. */
module SplitFences {
  import opened Text
  import opened SplitScan
  import opened Splitter

  /** Every run of three or more backticks is exactly three long and starts a line. */
  ghost predicate WellPlaced(t: string) {
    forall i :: 0 <= i && FenceAt(t, i) ==> WellPlacedAt(t, i)
  }

  predicate WellPlacedAt(t: string, i: nat)
    requires i + 2 < |t|
  {
    (i == 0 || t[i - 1] == '\n') && (i + 3 < |t| ==> t[i + 3] != '`')
  }

  ghost predicate NotInside(t: string, c: nat) {
    forall i :: FenceAt(t, i) ==> c <= i || i + 3 <= c
  }

  predicate Balanced(chunk: string) {
    LastUnclosed(chunk) == -1
  }

  /** A cut that does not fall inside a fence divides the fences of a text. */
  lemma {:induction false} FencesDivide(s: string, c: nat, i: nat)
    requires i <= c <= |s| && NotInside(s, c)
    ensures Fences(s, i) == Fences(s[..c], i) + Fences(s, c)
    decreases c - i
  {
    var p := s[..c];
    if i == c {
      assert Fences(p, c) == [];
    } else if FenceAt(s, i) {
      assert FenceAt(p, i);
      FencesDivide(s, c, i + 3);
      assert [i] + (Fences(p, i + 3) + Fences(s, c)) == ([i] + Fences(p, i + 3)) + Fences(s, c);
    } else {
      assert !FenceAt(p, i);
      FencesDivide(s, c, i + 1);
    }
  }

  /** Fences from i on when the first one stands at f and reaches the end. */
  lemma {:induction false} OneFence(s: string, i: nat, f: nat)
    requires i <= f && f + 3 == |s| && FenceAt(s, f) && forall k :: i <= k < f ==> !FenceAt(s, k)
    ensures Fences(s, i) == [f]
    decreases f - i
  {
    if i < f {
      OneFence(s, i + 1, f);
    }
  }

  lemma NotInsidePrefix(t: string, c: nat, e: nat)
    requires c <= e <= |t| && NotInside(t, c)
    ensures NotInside(t[..e], c)
  {
    assert forall i :: FenceAt(t[..e], i) ==> FenceAt(t, i);
  }

  /** A well-placed fence is never cut by the natural end of a chunk. */
  lemma NaturalCutNotInside(t: string, maxLen: nat)
    requires 10 <= maxLen < |t| && WellPlaced(t)
    ensures NotInside(t, NaturalCut(t, EffectiveLimit(maxLen)))
  {
    var e := EffectiveLimit(maxLen);
    var m := NaturalCut(t, e);
    LastInIsLast(t[..e], 200, IsNewline);
    LastInIsLast(t[..e], 100, IsSpaceOrTab);
    forall i | FenceAt(t, i)
      ensures m <= i || i + 3 <= m
    {
      assert WellPlacedAt(t, i);
      assert 0 < i <= e ==> t[..e][i - 1] == t[i - 1];
    }
  }

  /** The open fence is the last fence in front of m, and the number of fences there is odd. */
  lemma OpenFenceIsLast(t: string, m: nat, u: nat)
    requires m <= |t| && LastUnclosed(t[..m]) == u
    ensures var f := Fences(t[..m], 0); Odd(|f|) && f[|f| - 1] == u && FenceAt(t, u) && u + 3 <= m
  {
    UnclosedInside(t, m);
  }

  /** Past the open fence and outside any other, the number of fences in front stays odd. */
  lemma OddPastOpenFence(t: string, m: nat, u: nat, c: nat)
    requires m <= |t| && c <= |t| && LastUnclosed(t[..m]) == u
    requires NotInside(t, m) && NotInside(t, c) && u + 3 <= c
    requires forall i :: m <= i < c ==> !FenceAt(t[..c], i)
    ensures Odd(|Fences(t[..c], 0)|)
  {
    OpenFenceIsLast(t, m, u);
    if m <= c {
      var s := t[..c];
      NotInsidePrefix(t, m, c);
      FencesDivide(s, m, 0);
      assert s[..m] == t[..m];
      NoFencesFrom(s, m);
    } else {
      var s := t[..m];
      NotInsidePrefix(t, c, m);
      FencesDivide(s, c, 0);
      assert s[..c] == t[..c];
      FencesAreFences(s, c);
      assert Fences(s, c) == [];
    }
  }

  lemma FirstFenceAfter(t: string, m: nat, k: int)
    requires m <= |t|
    ensures var f := FirstFence(t[m..], 0);
            && (m <= k && FenceAt(t, k) ==> 0 <= f && m + f <= k)
            && (0 <= f ==> FenceAt(t, m + f))
  {
    FirstFenceIsFirst(t[m..], 0);
    assert m <= k && FenceAt(t, k) ==> FenceAt(t[m..], k - m);
  }

  /** Extending a chunk past the closing fence makes the number of its fences even. */
  lemma ExtendedIsBalanced(t: string, m: nat, u: nat)
    requires m <= |t| && LastUnclosed(t[..m]) == u && NotInside(t, m)
    requires 0 <= FirstFence(t[m..], 0)
    ensures var e := m + FirstFence(t[m..], 0) + 3; e <= |t| && Balanced(t[..e])
  {
    var e := m + FirstFence(t[m..], 0) + 3;
    FirstFenceAfter(t, m, -1);
    var s := t[..e];
    OpenFenceIsLast(t, m, u);
    NotInsidePrefix(t, m, e);
    FencesDivide(s, m, 0);
    assert s[..m] == t[..m];
    forall k | m <= k < e - 3
      ensures !FenceAt(s, k)
    {
      FirstFenceAfter(t, m, k);
    }
    OneFence(s, m, e - 3);
  }

  /** Trimming and closing a chunk with an odd number of fences makes the number even. */
  lemma ClosedIsBalanced(t: string, c: nat)
    requires c <= |t| && Odd(|Fences(t[..c], 0)|)
    ensures Balanced(TrimRight(t[..c], IsBlank) + CLOSER)
  {
    var body := t[..c];
    var k := Kept(body, IsBlank);
    KeptIs(body, IsBlank);
    assert NotInside(body, k);
    FencesDivide(body, k, 0);
    NoFencesFrom(body, k);
    var chunk := body[..k] + CLOSER;
    assert NotInside(chunk, k);
    FencesDivide(chunk, k, 0);
    assert chunk[..k] == body[..k];
    OneFence(chunk, k, k + 1);
  }

  /** In front of a well-placed open fence, one newline back, the number of fences is even. */
  lemma BeforeIsBalanced(t: string, m: nat, u: nat)
    requires m <= |t| && LastUnclosed(t[..m]) == u && 0 < u && FenceAt(t, u) && WellPlaced(t)
    ensures Balanced(t[..u - 1])
  {
    OpenFenceIsLast(t, m, u);
    assert WellPlacedAt(t, u);
    var s := t[..m];
    assert NotInside(s, u - 1);
    FencesDivide(s, u - 1, 0);
    assert s[..u - 1] == t[..u - 1];
    assert Fences(s, u - 1) == Fences(s, u) == [u] + Fences(s, u + 3);
    FencesAreFences(s, u + 3);
    assert Fences(s, u + 3) == [];
  }

  lemma BeforeIsNewline(t: string, u: nat)
    requires FenceAt(t, u) && WellPlaced(t)
    ensures if 1 < u then CutBefore(t, u) == u - 1 else CutBefore(t, u) <= 0
  {
  }

  lemma OpenCutIsBalanced(t: string, maxLen: nat, m: nat, u: nat)
    requires 10 <= maxLen < |t| && WellPlaced(t) && m == NaturalCut(t, EffectiveLimit(maxLen))
    requires LastUnclosed(t[..m]) == u && FenceAt(t, u) && u + 3 <= m
    requires forall k :: m <= k && k + 3 <= maxLen ==> !FenceAt(t, k)
    ensures Balanced(ChunkAt(t, OpenCut(t, maxLen, m, u)))
  {
    var c := OpenCut(t, maxLen, m, u);
    BeforeIsNewline(t, u);
    if c.Plain? {
      BeforeIsBalanced(t, m, u);
    } else {
      assert c.end == maxLen - 5 || (u + 3 <= c.end && t[c.end] == '\n') by {
        LastInIsLast(t[..maxLen - 5], 200, IsNewline);
      }
      hide OpenCut;
      FencedIsBalanced(t, maxLen, m, u, c.end);
    }
  }

  lemma FencedIsBalanced(t: string, maxLen: nat, m: nat, u: nat, c: nat)
    requires 10 <= maxLen < |t| && WellPlaced(t) && m == NaturalCut(t, EffectiveLimit(maxLen))
    requires LastUnclosed(t[..m]) == u && FenceAt(t, u) && u + 3 <= m
    requires forall k :: m <= k && k + 3 <= maxLen ==> !FenceAt(t, k)
    requires c == maxLen - 5 || (u + 3 <= c < maxLen - 5 && t[c] == '\n')
    ensures Balanced(TrimRight(t[..c], IsBlank) + CLOSER)
  {
    NaturalCutNotInside(t, maxLen);
    assert m <= EffectiveLimit(maxLen) <= maxLen - 5;
    hide NaturalCut, EffectiveLimit, LastUnclosed, WellPlaced;
    assert NotInside(t, c) by {
      forall i | FenceAt(t, i)
        ensures c <= i || i + 3 <= c
      {
        assert m <= i || i + 3 <= m;
      }
    }
    assert forall i :: m <= i && FenceAt(t[..c], i) ==> FenceAt(t, i);
    OddPastOpenFence(t, m, u, c);
    ClosedIsBalanced(t, c);
  }

  lemma ChunkIsBalanced(t: string, maxLen: nat)
    requires 10 <= maxLen < |t| && WellPlaced(t)
    ensures Balanced(ChunkAt(t, ChooseCut(t, maxLen)))
  {
    var m := NaturalCut(t, EffectiveLimit(maxLen));
    var u := LastUnclosed(t[..m]);
    NaturalCutNotInside(t, maxLen);
    UnclosedInside(t, m);
    FencesAreFences(t[..m], 0);
    assert u < 0 ==> Balanced(t[..m]);
    hide LastUnclosed, NaturalCut, EffectiveLimit, NotInside, WellPlaced, OpenCut, Balanced, FirstFence;
    if 0 <= u {
      var f := FirstFence(t[m..], 0);
      if 0 <= f && m + f + 3 <= maxLen {
        ExtendedIsBalanced(t, m, u);
      } else {
        forall k | m <= k && k + 3 <= maxLen
          ensures !FenceAt(t, k)
        {
          FirstFenceAfter(t, m, k);
        }
        OpenCutIsBalanced(t, maxLen, m, u);
      }
    }
  }

  lemma WellPlacedSuffix(t: string, k: nat)
    requires k <= |t| && WellPlaced(t)
    ensures WellPlaced(t[k..])
  {
    forall i | 0 <= i && FenceAt(t[k..], i)
      ensures WellPlacedAt(t[k..], i)
    {
      assert FenceAt(t, k + i) && WellPlacedAt(t, k + i);
    }
  }

  lemma WellPlacedPrefix(t: string, k: nat)
    requires k <= |t| && WellPlaced(t)
    ensures WellPlaced(t[..k])
  {
    forall i | 0 <= i && FenceAt(t[..k], i)
      ensures WellPlacedAt(t[..k], i)
    {
      assert FenceAt(t, i) && WellPlacedAt(t, i);
    }
  }

  lemma WellPlacedReopened(t: string, u: nat, h: nat, c: nat)
    requires WellPlaced(t) && FenceAt(t, u) && 3 <= h && u + h <= |t| && c <= |t|
    requires forall i :: u <= i < u + h ==> t[i] != '\n'
    ensures WellPlaced(t[u..u + h] + "\n" + t[c..])
  {
    var x := t[u..u + h] + "\n" + t[c..];
    assert WellPlacedAt(t, u);
    forall i | 0 <= i && FenceAt(x, i)
      ensures WellPlacedAt(x, i)
    {
      if i < h {
        assert FenceAt(t, u + i) && WellPlacedAt(t, u + i);
      } else {
        var j := c + (i - h - 1);
        assert FenceAt(t, j) && WellPlacedAt(t, j);
      }
    }
  }

  lemma PlainRestIsWellPlaced(t: string, c: Cut)
    requires WellPlaced(t) && c.Plain? && c.end <= |t|
    ensures WellPlaced(RestAfter(t, c))
  {
    hide WellPlaced, Leading;
    WellPlacedSuffix(t, c.end);
    WellPlacedSuffix(t[c.end..], Leading(t[c.end..], IsBlank));
  }

  lemma FencedRestIsWellPlaced(t: string, c: Cut)
    requires WellPlaced(t) && c.Fenced? && c.end <= |t| && FenceAt(t, c.open) && c.header == HeaderLength(t, c.open)
    ensures WellPlaced(RestAfter(t, c))
  {
    hide WellPlaced, HeaderLength, TrimSpace, FenceAt;
    HeaderInLine(t, c.open);
    WellPlacedReopenedRest(t, c.open, c.header, c.end);
  }

  lemma RestIsWellPlaced(t: string, c: Cut)
    requires WellPlaced(t) && c.end <= |t|
    requires c.Fenced? ==> FenceAt(t, c.open) && c.header == HeaderLength(t, c.open)
    ensures WellPlaced(RestAfter(t, c))
  {
    hide WellPlaced, HeaderLength, RestAfter, FenceAt;
    if c.Plain? {
      PlainRestIsWellPlaced(t, c);
    } else {
      FencedRestIsWellPlaced(t, c);
    }
  }

  lemma WellPlacedReopenedRest(t: string, u: nat, h: nat, c: nat)
    requires WellPlaced(t) && FenceAt(t, u) && 3 <= h && u + h <= |t| && c <= |t|
    requires forall i :: u <= i < u + h ==> t[i] != '\n'
    ensures WellPlaced(TrimSpace(t[u..u + h] + "\n" + t[c..]))
  {
    var x := t[u..u + h] + "\n" + t[c..];
    assert x[0] == '`';
    hide WellPlaced;
    WellPlacedReopened(t, u, h, c);
    TrimSpaceFromInk(x);
    WellPlacedPrefix(x, Kept(x, IsSpace));
  }

  /**
   * From 10 runes on, and for messages whose backtick runs of three or more are exactly three long and start a
   * line, no chunk but the last ends inside a code block, as the source's own scan of the chunk tells.
   */
  lemma {:induction false} ChunksAreBalanced(st: State, maxLen: nat, n: nat)
    requires 10 <= maxLen && WellPlaced(st.rest)
    requires forall i :: 0 <= i < |st.chunks| ==> Balanced(st.chunks[i])
    ensures var r := Run(st, maxLen, n);
            forall i :: 0 <= i < |r.chunks| - (if r.rest == "" then 1 else 0) ==> Balanced(r.chunks[i])
    decreases n
  {
    hide ChooseCut, ChunkAt, RestAfter, WellPlaced, Balanced;
    if n != 0 && st.rest != "" {
      RunOnce(st, maxLen, n - 1);
      if maxLen < |st.rest| {
        ChunkIsBalanced(st.rest, maxLen);
        RestIsWellPlaced(st.rest, ChooseCut(st.rest, maxLen));
        ChunksAreBalanced(Next(st, maxLen), maxLen, n - 1);
      } else {
        assert Run(Next(st, maxLen), maxLen, n - 1) == Next(st, maxLen);
      }
    }
  }
}
