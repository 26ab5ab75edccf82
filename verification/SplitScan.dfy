/** The range scans of the message splitter, each proved against a function of the scanned range alone. */
module SplitScan {
  import opened Text

  /** Last index among the final `window` runes of s whose rune satisfies p, or -1. */
  function LastIn(s: string, window: nat, p: char -> bool): (r: int)
    ensures -1 <= r < |s|
  {
    if s == "" || window == 0 then -1
    else if p(s[|s| - 1]) then |s| - 1
    else LastIn(s[..|s| - 1], window - 1, p)
  }

  lemma {:induction false} LastInIsLast(s: string, window: nat, p: char -> bool)
    ensures var r := LastIn(s, window, p);
            && (0 <= r ==> p(s[r]) && |s| - window <= r)
            && forall i :: r < i < |s| && |s| - window <= i && 0 <= i ==> !p(s[i])
  {
    if s != "" && window != 0 && !p(s[|s| - 1]) {
      LastInIsLast(s[..|s| - 1], window - 1, p);
    }
  }

  /** First index whose rune is a newline, or -1. */
  function FirstNewline(s: string): (r: int)
    ensures -1 <= r < |s|
  {
    if s == "" then -1
    else if s[0] == '\n' then 0
    else
      var r := FirstNewline(s[1..]);
      if r < 0 then -1 else r + 1
  }

  lemma {:induction false} FirstNewlineIsFirst(s: string)
    ensures var r := FirstNewline(s);
      (0 <= r ==> s[r] == '\n') && forall i :: 0 <= i < (if r < 0 then |s| else r) ==> s[i] != '\n'
  {
    if s != "" && s[0] != '\n' {
      FirstNewlineIsFirst(s[1..]);
    }
  }

  lemma {:induction false} FirstNewlineIs(s: string, n: nat)
    requires n < |s| && s[n] == '\n' && forall i :: 0 <= i < n ==> s[i] != '\n'
    ensures FirstNewline(s) == n
  {
    if n != 0 {
      FirstNewlineIs(s[1..], n - 1);
    }
  }

  predicate FenceAt(s: string, i: int) {
    0 <= i && i + 2 < |s| && s[i] == '`' && s[i + 1] == '`' && s[i + 2] == '`'
  }

  /** First index at or after i where three backticks stand, or -1. */
  function FirstFence(s: string, i: nat): (r: int)
    requires i <= |s|
    ensures r == -1 || (i <= r && r + 2 < |s|)
    decreases |s| - i
  {
    if i == |s| then -1 else if FenceAt(s, i) then i else FirstFence(s, i + 1)
  }

  lemma {:induction false} FirstFenceIsFirst(s: string, i: nat)
    requires i <= |s|
    ensures var r := FirstFence(s, i);
      (0 <= r ==> FenceAt(s, r)) && forall k :: i <= k < (if r < 0 then |s| else r) ==> !FenceAt(s, k)
    decreases |s| - i
  {
    if i < |s| && !FenceAt(s, i) {
      FirstFenceIsFirst(s, i + 1);
    }
  }

  /** Positions of the fences of s from i on: leftmost first, three runes each, not overlapping. */
  function Fences(s: string, i: nat): seq<int>
    decreases |s| - i
  {
    if |s| <= i then [] else if FenceAt(s, i) then [i] + Fences(s, i + 3) else Fences(s, i + 1)
  }

  predicate Odd(n: nat) {
    n % 2 == 1
  }

  lemma {:induction false} FencesAreFences(s: string, i: nat)
    ensures forall k :: 0 <= k < |Fences(s, i)| ==> i <= Fences(s, i)[k] && FenceAt(s, Fences(s, i)[k])
    decreases |s| - i
  {
    if i < |s| {
      FencesAreFences(s, if FenceAt(s, i) then i + 3 else i + 1);
    }
  }

  lemma {:induction false} NoFencesFrom(s: string, i: nat)
    requires forall k :: i <= k ==> !FenceAt(s, k)
    ensures Fences(s, i) == []
    decreases |s| - i
  {
    if i < |s| {
      NoFencesFrom(s, i + 1);
    }
  }

  /** The fence that opens a block still open at the end of s, or -1. */
  function LastUnclosed(s: string): int
  {
    var f := Fences(s, 0);
    if Odd(|f|) then f[|f| - 1] else -1
  }

  method FindLastNewlineInRange(runes: string, start: nat, end: nat, searchWindow: nat) returns (r: int)
    requires start <= end <= |runes|
    ensures r == start + LastIn(runes[start..end], searchWindow, IsNewline)
  {
    var searchStart := if start < end - searchWindow then end - searchWindow else start;
    var i := end - 1;
    while searchStart <= i
      invariant searchStart - 1 <= i < end
      invariant LastIn(runes[start..end], searchWindow, IsNewline)
             == LastIn(runes[start..i + 1], searchWindow - (end - 1 - i), IsNewline)
    {
      if runes[i] == '\n' {
        return i;
      }
      assert runes[start..i + 1][..i - start] == runes[start..i];
      i := i - 1;
    }
    return start - 1;
  }

  method FindLastSpaceInRange(runes: string, start: nat, end: nat, searchWindow: nat) returns (r: int)
    requires start <= end <= |runes|
    ensures r == start + LastIn(runes[start..end], searchWindow, IsSpaceOrTab)
  {
    var searchStart := if start < end - searchWindow then end - searchWindow else start;
    var i := end - 1;
    while searchStart <= i
      invariant searchStart - 1 <= i < end
      invariant LastIn(runes[start..end], searchWindow, IsSpaceOrTab)
             == LastIn(runes[start..i + 1], searchWindow - (end - 1 - i), IsSpaceOrTab)
    {
      if runes[i] == ' ' || runes[i] == '\t' {
        return i;
      }
      assert runes[start..i + 1][..i - start] == runes[start..i];
      i := i - 1;
    }
    return start - 1;
  }

  method FindNewlineFrom(runes: string, from: nat) returns (r: int)
    requires from <= |runes|
    ensures var n := FirstNewline(runes[from..]); r == if n < 0 then -1 else from + n
  {
    ghost var whole := FirstNewline(runes[from..]);
    var i := from;
    while i < |runes|
      invariant from <= i <= |runes|
      invariant whole == (var n := FirstNewline(runes[i..]); if n < 0 then -1 else i - from + n)
    {
      if runes[i] == '\n' {
        return i;
      }
      assert runes[i..][1..] == runes[i + 1..];
      i := i + 1;
    }
    return -1;
  }

  method FindNextClosingCodeBlockInRange(runes: string, startIdx: nat, end: nat) returns (r: int)
    requires startIdx <= end <= |runes|
    ensures var f := FirstFence(runes[startIdx..end], 0); r == if f < 0 then -1 else startIdx + f + 3
  {
    ghost var s := runes[startIdx..end];
    var i := startIdx;
    while i < end
      invariant startIdx <= i <= end
      invariant FirstFence(s, 0) == FirstFence(s, i - startIdx)
    {
      if i + 2 < end && runes[i] == '`' && runes[i + 1] == '`' && runes[i + 2] == '`' {
        return i + 3;
      }
      i := i + 1;
    }
    return -1;
  }

  lemma PastEnd(s: string, i: nat)
    requires |s| <= i
    ensures Fences(s, i) == []
  {
  }

  lemma ScanStep(s: string, seen: seq<int>, k: nat)
    requires k < |s|
    ensures var next := if FenceAt(s, k) then (seen + [k]) + Fences(s, k + 3) else seen + Fences(s, k + 1);
      seen + Fences(s, k) == next
  {
  }

  method FindLastUnclosedCodeBlockInRange(runes: string, start: nat, end: nat) returns (r: int)
    requires start <= end <= |runes|
    ensures var u := LastUnclosed(runes[start..end]); r == if u < 0 then -1 else start + u
  {
    hide Fences;
    ghost var s := runes[start..end];
    ghost var seen: seq<int> := [];
    var inCodeBlock := false;
    var lastOpenIdx := -1;
    var i := start;
    while i < end
      invariant start <= i
      invariant Fences(s, 0) == seen + Fences(s, i - start)
      invariant inCodeBlock <==> Odd(|seen|)
      invariant inCodeBlock ==> lastOpenIdx == start + seen[|seen| - 1]
    {
      ghost var k := i - start;
      ScanStep(s, seen, k);
      assert FenceAt(s, k) == (i + 2 < end && runes[i] == '`' && runes[i + 1] == '`' && runes[i + 2] == '`');
      if i + 2 < end && runes[i] == '`' && runes[i + 1] == '`' && runes[i + 2] == '`' {
        if !inCodeBlock {
          lastOpenIdx := i;
        }
        inCodeBlock := !inCodeBlock;
        seen := seen + [k];
        i := i + 2;
      }
      i := i + 1;
    }
    PastEnd(s, i - start);
    assert Fences(s, 0) == seen;
    assert seen != [] ==> 0 <= seen[|seen| - 1] by {
      FencesAreFences(s, 0);
    }
    return if inCodeBlock then lastOpenIdx else -1;
  }
}
