/** The message splitter: one iteration of its loop as a function of the text still to be sent, and the loop itself. */
module Splitter {
  import opened Basics
  import opened Text
  import opened SplitScan

  const CLOSER: string := "\n```"

  /**
   * Where one chunk ends. Plain(end) sends the text before end as it is. Fenced(end, open, header) closes the
   * block that opens at `open` and repeats its header, `header` runes long, in front of what follows.
   */
  datatype Cut = Plain(end: nat) | Fenced(end: nat, open: nat, header: nat)

  datatype State = State(rest: string, chunks: seq<string>)

  function EffectiveLimit(maxLen: nat): (e: nat)
    ensures 0 < maxLen ==> 0 < e <= maxLen
    ensures 10 <= maxLen ==> 5 <= e <= maxLen - 5
  {
    var buffer := Max(maxLen / 10, 50);
    var reserve := if maxLen / 2 < buffer then maxLen / 2 else buffer;
    Max(maxLen - reserve, maxLen / 2)
  }

  /** A newline, else a space, else the limit. A separator at index 0 does not count. */
  function NaturalCut(t: string, limit: nat): (m: nat)
    requires 0 < limit <= |t|
    ensures 0 < m <= limit
  {
    var n := LastIn(t[..limit], 200, IsNewline);
    var b := LastIn(t[..limit], 100, IsSpaceOrTab);
    if 0 < n then n else if 0 < b then b else limit
  }

  /** Length of the trimmed first line of s. */
  function TrimmedLine(s: string): (h: nat)
    requires FenceAt(s, 0)
    ensures 3 <= h <= |s|
  {
    var n := FirstNewline(s);
    if n < 0 then 3 else
      FirstNewlineIsFirst(s);
      KeptCovers(s[..n], IsSpace, 2);
      Kept(s[..n], IsSpace)
  }

  /** Length of the trimmed header line of the fence at u. */
  function HeaderLength(t: string, u: nat): (h: nat)
    requires FenceAt(t, u)
    ensures 3 <= h && u + h <= |t|
  {
    assert FenceAt(t[u..], 0);
    TrimmedLine(t[u..])
  }

  /** Position at which the header line of the fence at u ends. */
  function HeaderEnd(t: string, u: nat): (e: nat)
    requires FenceAt(t, u)
    ensures u + HeaderLength(t, u) <= e <= |t|
  {
    assert FenceAt(t[u..], 0);
    var n := FirstNewline(t[u..]);
    if n < 0 then u + 3 else u + n
  }

  /** The header is the first line, trimmed. */
  lemma TrimmedLineIs(s: string)
    requires FenceAt(s, 0) && 0 <= FirstNewline(s)
    ensures TrimSpace(s[..FirstNewline(s)]) == s[..TrimmedLine(s)]
    ensures !IsSpace(s[TrimmedLine(s) - 1])
  {
    var line := s[..FirstNewline(s)];
    FirstNewlineIsFirst(s);
    KeptIs(line, IsSpace);
    hide Kept, FirstNewline;
    TrimSpaceFromInk(line);
  }

  /** No newline in a header. */
  lemma HeaderInLine(t: string, u: nat)
    requires FenceAt(t, u)
    ensures forall i :: u <= i < u + HeaderLength(t, u) ==> t[i] != '\n'
  {
    var s := t[u..];
    FirstNewlineIsFirst(s);
    hide FirstNewline, Kept;
    assert forall i :: u <= i < u + HeaderLength(t, u) ==> t[i] == s[i - u];
  }

  ghost predicate ValidCut(t: string, maxLen: nat, c: Cut) {
    && c.end < |t|
    && (c.Plain? ==> 0 < c.end <= maxLen)
    && (c.Fenced? ==> FenceAt(t, c.open) && c.header == HeaderLength(t, c.open) && c.end <= maxLen - 5)
  }

  function ChooseCut(t: string, maxLen: nat): (c: Cut)
    requires 0 < maxLen < |t|
    ensures ValidCut(t, maxLen, c)
  {
    var m := NaturalCut(t, EffectiveLimit(maxLen));
    var u := LastUnclosed(t[..m]);
    if u < 0 then Plain(m) else
      UnclosedInside(t, m);
      FencedCut(t, maxLen, m, u)
  }

  lemma UnclosedInside(t: string, m: nat)
    requires m <= |t|
    ensures var u := LastUnclosed(t[..m]); 0 <= u ==> FenceAt(t, u) && u + 2 < m
  {
    FencesAreFences(t[..m], 0);
  }

  /** The cut when the block at u is still open at m: past its closing fence if that fits. */
  function FencedCut(t: string, maxLen: nat, m: nat, u: nat): (c: Cut)
    requires 0 < m <= maxLen < |t| && FenceAt(t, u) && u + 2 < m
    requires m <= EffectiveLimit(maxLen)
    ensures ValidCut(t, maxLen, c)
  {
    var f := FirstFence(t[m..], 0);
    if 0 <= f && m + f + 3 <= maxLen then Plain(m + f + 3) else OpenCut(t, maxLen, m, u)
  }

  /** The cut when the block at u does not close in time: inside the block, or in front of it. */
  function OpenCut(t: string, maxLen: nat, m: nat, u: nat): (c: Cut)
    requires 0 < m <= maxLen < |t| && FenceAt(t, u) && u + 2 < m
    requires m <= EffectiveLimit(maxLen)
    ensures ValidCut(t, maxLen, c)
  {
    var h := HeaderLength(t, u);
    var headerEnd := HeaderEnd(t, u);
    if headerEnd + 20 < m then
      var b := LastIn(t[..maxLen - 5], 200, IsNewline);
      Fenced(if headerEnd < b then b else maxLen - 5, u, h)
    else
      var before := CutBefore(t, u);
      if 0 < before then Plain(before)
      else if 20 < u then Plain(u)
      else
        assert 5 <= maxLen;
        Fenced(maxLen - 5, u, h)
  }

  /** A newline, else a space, in front of position u, or a value that is not positive. */
  function CutBefore(t: string, u: nat): (c: int)
    requires u <= |t|
    ensures c < u || c <= 0
  {
    var n := LastIn(t[..u], 200, IsNewline);
    if 0 < n then n else LastIn(t[..u], 100, IsSpaceOrTab)
  }

  function ChunkAt(t: string, c: Cut): string
    requires c.end <= |t|
  {
    if c.Plain? then t[..c.end] else TrimRight(t[..c.end], IsBlank) + CLOSER
  }

  function RestAfter(t: string, c: Cut): string
    requires c.end <= |t| && (c.Fenced? ==> c.open + c.header <= |t|)
  {
    if c.Plain? then t[c.end..][Leading(t[c.end..], IsBlank)..]
    else TrimSpace(t[c.open..c.open + c.header] + "\n" + t[c.end..])
  }

  /** One iteration of the loop. */
  function Next(st: State, maxLen: nat): State
    requires 0 < maxLen && st.rest != ""
  {
    if |st.rest| <= maxLen then State("", st.chunks + [st.rest])
    else
      var c := ChooseCut(st.rest, maxLen);
      State(RestAfter(st.rest, c), st.chunks + [ChunkAt(st.rest, c)])
  }

  /** At most n iterations. */
  function Run(st: State, maxLen: nat, n: nat): State
    requires 0 < maxLen
    decreases n
  {
    if n == 0 || st.rest == "" then st else Run(Next(st, maxLen), maxLen, n - 1)
  }

  /** The loop ends: exactly the calls on which the source returns. */
  ghost predicate Halts(st: State, maxLen: nat)
    requires 0 < maxLen
  {
    exists n :: Finishes(st, maxLen, n)
  }

  ghost predicate Finishes(st: State, maxLen: nat, n: nat)
    requires 0 < maxLen
  {
    Run(st, maxLen, n).rest == ""
  }

  /** One iteration from a text that is not empty. */
  lemma RunOnce(st: State, maxLen: nat, n: nat)
    requires 0 < maxLen && st.rest != ""
    ensures Run(st, maxLen, 1) == Next(st, maxLen)
    ensures Run(st, maxLen, n + 1) == Run(Next(st, maxLen), maxLen, n)
  {
    hide Next;
  }

  /** n iterations and one more are n + 1 iterations. */
  lemma {:induction false} RunSnoc(st: State, maxLen: nat, n: nat)
    requires 0 < maxLen
    ensures Run(st, maxLen, n + 1) == Run(Run(st, maxLen, n), maxLen, 1)
    decreases n
  {
    hide Next;
    if n != 0 && st.rest != "" {
      RunSnoc(Next(st, maxLen), maxLen, n - 1);
    }
  }

  /** The natural cut, in indices of the working buffer. */
  method NaturalEnd(runes: string, start: nat, end: nat) returns (msgEnd: int)
    requires start < end <= |runes|
    ensures msgEnd == start + NaturalCut(runes[start..], end - start)
  {
    ghost var t := runes[start..];
    assert runes[start..end] == t[..end - start];
    msgEnd := FindLastNewlineInRange(runes, start, end, 200);
    if msgEnd <= start {
      msgEnd := FindLastSpaceInRange(runes, start, end, 100);
    }
    if msgEnd <= start {
      msgEnd := end;
    }
  }

  /** Header of the block that opens at unclosedIdx, and where the header ends. */
  method HeaderAt(runes: string, unclosedIdx: nat) returns (header: string, headerEndIdx: nat)
    requires FenceAt(runes, unclosedIdx)
    ensures header == runes[unclosedIdx..unclosedIdx + HeaderLength(runes, unclosedIdx)]
    ensures headerEndIdx == HeaderEnd(runes, unclosedIdx)
  {
    ghost var s := runes[unclosedIdx..];
    var headerEnd := FindNewlineFrom(runes, unclosedIdx);
    if headerEnd == -1 {
      header := TrimSpace(runes[unclosedIdx..unclosedIdx + 3]);
      assert header == "```" by {
        assert runes[unclosedIdx..unclosedIdx + 3] == "```";
      }
    } else {
      header := TrimSpace(runes[unclosedIdx..headerEnd]);
      TrimmedLineIs(s);
      assert runes[unclosedIdx..headerEnd] == s[..headerEnd - unclosedIdx];
    }
    hide TrimmedLine, FirstNewline;
    headerEndIdx := unclosedIdx + |header|;
    if headerEnd != -1 {
      headerEndIdx := headerEnd;
    }
  }

  /** Reading at offset u of a suffix is reading at start + u of the whole. */
  lemma SuffixReads(runes: string, start: nat, u: nat)
    requires start + u <= |runes|
    ensures runes[start..][u..] == runes[start + u..]
    ensures runes[start..][..u] == runes[start..start + u]
  {
  }

  lemma SuffixHeader(runes: string, start: nat, u: nat)
    requires start <= |runes| && FenceAt(runes[start..], u)
    ensures FenceAt(runes, start + u)
    ensures HeaderLength(runes[start..], u) == HeaderLength(runes, start + u)
    ensures HeaderEnd(runes, start + u) == start + HeaderEnd(runes[start..], u)
    ensures var h := HeaderLength(runes, start + u);
            runes[start..][u..u + h] == runes[start + u..start + u + h]
  {
    SuffixReads(runes, start, u);
    hide TrimmedLine, FirstNewline;
  }

  /** OpenCut in indices of the working buffer. */
  method OpenEnd(runes: string, start: nat, maxLen: nat, naturalEnd: nat, unclosedIdx: nat)
    returns (inject: bool, msgEnd: int, header: string)
    requires start < naturalEnd <= start + EffectiveLimit(maxLen) && 0 < maxLen < |runes| - start
    requires start <= unclosedIdx && FenceAt(runes[start..], unclosedIdx - start) && unclosedIdx + 2 < naturalEnd
    ensures var c := OpenCut(runes[start..], maxLen, naturalEnd - start, unclosedIdx - start);
            && msgEnd == start + c.end && inject == c.Fenced?
            && (inject ==> header == runes[start..][c.open..c.open + c.header])
  {
    hide LastIn;
    hide HeaderLength;
    hide HeaderEnd;
    hide EffectiveLimit;
    SuffixHeader(runes, start, unclosedIdx - start);
    var headerEndIdx;
    header, headerEndIdx := HeaderAt(runes, unclosedIdx);
    if headerEndIdx + 20 < naturalEnd {
      var innerLimit := Min(start + maxLen - 5, |runes|);
      SuffixReads(runes, start, innerLimit - start);
      var betterEnd := FindLastNewlineInRange(runes, start, innerLimit, 200);
      inject := true;
      if headerEndIdx < betterEnd {
        msgEnd := betterEnd;
      } else {
        msgEnd := innerLimit;
      }
    } else {
      SuffixReads(runes, start, unclosedIdx - start);
      inject := false;
      msgEnd := FindLastNewlineInRange(runes, start, unclosedIdx, 200);
      if msgEnd <= start {
        msgEnd := FindLastSpaceInRange(runes, start, unclosedIdx, 100);
      }
      if msgEnd <= start {
        if 20 < unclosedIdx - start {
          msgEnd := unclosedIdx;
        } else {
          inject := true;
          msgEnd := Min(start + maxLen - 5, |runes|);
        }
      }
    }
  }

  /** FencedCut in indices of the working buffer. */
  method FencedEnd(runes: string, start: nat, maxLen: nat, naturalEnd: nat, unclosedIdx: nat)
    returns (inject: bool, msgEnd: int, header: string)
    requires start < naturalEnd <= start + EffectiveLimit(maxLen) && 0 < maxLen < |runes| - start
    requires start <= unclosedIdx && FenceAt(runes[start..], unclosedIdx - start) && unclosedIdx + 2 < naturalEnd
    ensures var c := FencedCut(runes[start..], maxLen, naturalEnd - start, unclosedIdx - start);
            && msgEnd == start + c.end && inject == c.Fenced?
            && (inject ==> header == runes[start..][c.open..c.open + c.header])
  {
    SuffixReads(runes, start, naturalEnd - start);
    assert runes[naturalEnd..|runes|] == runes[naturalEnd..];
    var closingIdx := FindNextClosingCodeBlockInRange(runes, naturalEnd, |runes|);
    if 0 < closingIdx && closingIdx - start <= maxLen {
      inject, msgEnd, header := false, closingIdx, "";
    } else {
      inject, msgEnd, header := OpenEnd(runes, start, maxLen, naturalEnd, unclosedIdx);
    }
  }

  method SkipBlanks(runes: string, from: nat) returns (start: nat)
    requires from <= |runes|
    ensures from <= start <= |runes|
    ensures runes[start..] == runes[from..][Leading(runes[from..], IsBlank)..]
  {
    ghost var s := runes[from..];
    ghost var lead := Leading(s, IsBlank);
    LeadingIs(s, IsBlank);
    hide Leading;
    start := from;
    while start < |runes|
      && (runes[start] == ' ' || runes[start] == '\t' || runes[start] == '\n' || runes[start] == '\r')
      invariant from <= start <= from + lead <= |runes|
    {
      assert s[start - from] == runes[start];
      start := start + 1;
    }
    assert start < |runes| ==> s[start - from] == runes[start];
    assert runes[start..] == s[lead..];
  }

  /** What one iteration sends, and the buffer and index it leaves. */
  method Send(runes: string, start: nat, inject: bool, msgEnd: nat, header: string, ghost c: Cut)
    returns (chunk: string, runes': string, start': nat)
    requires start <= msgEnd <= |runes| && c.end == msgEnd - start && inject == c.Fenced?
    requires inject ==> c.open + c.header <= |runes| - start && header == runes[start..][c.open..c.open + c.header]
    ensures chunk == ChunkAt(runes[start..], c)
    ensures start' <= |runes'| && runes'[start'..] == RestAfter(runes[start..], c)
  {
    hide Kept;
    hide Leading;
    SuffixReads(runes, start, msgEnd - start);
    if inject {
      chunk := TrimRight(runes[start..msgEnd], IsBlank) + "\n```";
      runes' := TrimSpace(header + "\n" + runes[msgEnd..]);
      start' := 0;
    } else {
      chunk := runes[start..msgEnd];
      runes' := runes;
      start' := SkipBlanks(runes, msgEnd);
    }
  }

  /** The body of the loop: the chunk to send, and the buffer and index that are left. */
  method Iterate(runes: string, start: nat, maxLen: nat, codeBlockBuffer: nat)
    returns (chunk: string, runes': string, start': nat)
    requires start < |runes| && 0 < maxLen
    requires Max(maxLen - codeBlockBuffer, maxLen / 2) == EffectiveLimit(maxLen)
    ensures start' <= |runes'|
    ensures Next(State(runes[start..], []), maxLen) == State(runes'[start'..], [chunk])
  {
    hide FencedCut, LastUnclosed, NaturalCut, ChunkAt, RestAfter, EffectiveLimit;
    var remaining := |runes| - start;
    if remaining <= maxLen {
      return runes[start..], runes, |runes|;
    }
    ghost var t := runes[start..];
    var effectiveLimit := Max(maxLen - codeBlockBuffer, maxLen / 2);
    var msgEnd := NaturalEnd(runes, start, start + effectiveLimit);
    var unclosedIdx := FindLastUnclosedCodeBlockInRange(runes, start, msgEnd);
    SuffixReads(runes, start, msgEnd - start);
    UnclosedInside(t, msgEnd - start);

    var inject, header := false, "";
    ghost var c := Plain(msgEnd - start);
    if 0 <= unclosedIdx {
      c := FencedCut(t, maxLen, msgEnd - start, unclosedIdx - start);
      inject, msgEnd, header := FencedEnd(runes, start, maxLen, msgEnd, unclosedIdx);
    }
    assert c == ChooseCut(t, maxLen);
    hide ChooseCut;
    chunk, runes', start' := Send(runes, start, inject, msgEnd, header, c);
  }

  /** The chunks sent so far only grow. */
  lemma NextAppends(st: State, maxLen: nat)
    requires 0 < maxLen && st.rest != ""
    ensures var one := Next(State(st.rest, []), maxLen);
            Next(st, maxLen) == State(one.rest, st.chunks + one.chunks)
  {
    hide ChooseCut, ChunkAt, RestAfter;
  }

  method SplitMessage(content: string, maxLen: int) returns (messages: seq<string>)
    requires 0 < maxLen ==> Halts(State(content, []), maxLen)
    ensures maxLen <= 0 ==> messages == if content == "" then [] else [content]
    ensures 0 < maxLen ==> exists n :: Run(State(content, []), maxLen, n) == State("", messages)
  {
    hide Next;
    if maxLen <= 0 {
      if content == "" {
        return [];
      }
      return [content];
    }

    var runes := content;
    messages := [];

    var codeBlockBuffer := Max(maxLen / 10, 50);
    if maxLen / 2 < codeBlockBuffer {
      codeBlockBuffer := maxLen / 2;
    }

    var start := 0;
    ghost var s0 := State(content, []);
    ghost var last: nat :| Finishes(s0, maxLen, last);
    ghost var left: nat := last;
    assert runes[start..] == content;
    while start < |runes|
      invariant 0 <= start <= |runes|
      invariant left <= last && Run(s0, maxLen, last - left) == State(runes[start..], messages)
      invariant Finishes(State(runes[start..], messages), maxLen, left)
      decreases left
    {
      ghost var st := State(runes[start..], messages);
      left := left - 1;
      RunSnoc(s0, maxLen, last - left - 1);
      RunOnce(st, maxLen, left);
      NextAppends(st, maxLen);
      var chunk;
      chunk, runes, start := Iterate(runes, start, maxLen, codeBlockBuffer);
      messages := messages + [chunk];
    }
    assert runes[start..] == "";
  }
}
