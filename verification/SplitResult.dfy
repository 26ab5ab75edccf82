/** What a caller of the message splitter may rely on. */
module SplitResult {
  import opened SplitScan
  import opened Splitter
  import SplitTermination
  import SplitConservation
  import SplitFences

  ghost predicate SplitsInto(content: string, maxLen: nat, messages: seq<string>, n: nat)
    requires 0 < maxLen
  {
    Run(State(content, []), maxLen, n) == State("", messages)
  }

  /** The chunks are short enough, carry the whole message, and close the code blocks they cut. */
  lemma ChunksAreSound(content: string, maxLen: nat, messages: seq<string>, n: nat)
    requires 0 < maxLen && SplitsInto(content, maxLen, messages, n)
    ensures forall i :: 0 <= i < |messages| ==> |messages[i]| <= maxLen
    ensures exists sent :: SplitConservation.Conserves(content, messages, sent)
    ensures 10 <= maxLen && SplitFences.WellPlaced(content) ==>
      forall i :: 0 <= i < |messages| - 1 ==> SplitFences.Balanced(messages[i])
  {
    hide Run;
    var st := State(content, []);
    SplitTermination.ChunksFit(st, maxLen, n);
    SplitConservation.NothingLost(content, maxLen, n);
    if 10 <= maxLen && SplitFences.WellPlaced(content) {
      SplitFences.ChunksAreBalanced(st, maxLen, n);
    }
  }

  /** A header of ten runes in chunks of ten: the source sends chunks without end. */
  lemma SplitterCanRunForEver()
    ensures !Halts(State("```abcdefg\nhijklm", []), 10)
  {
    var header, tail := "```abcdefg", "hijklm";
    var t := header + "\n" + tail;
    assert t == "```abcdefg\nhijklm";
    SplitTermination.ReopenedHeader(header, tail);
    assert forall i :: 3 <= i < |t| ==> t[i] != '`';
    assert forall i :: 0 < i <= 7 ==> !FenceAt(t, i);
    assert SplitTermination.Stalled(t, 10);
    hide HeaderLength, FirstNewline, SplitTermination.Stalled, Run;
    forall n
      ensures !Finishes(State(t, []), 10, n)
    {
      SplitTermination.NeverEnds(State(t, []), 10, n);
    }
  }
}
