/** What pruning cuts, and what is dropped before a list is sent, told from the messages alone. */
module DispatchResults {
  import opened Text
  import opened Messages
  import opened Dispatch
  import Glob

  /** The byte length is that of the UTF-8 encoding. */
  lemma {:induction false} BytesAreUtf8(s: string)
    ensures ByteLength(s) == |Glob.Utf8(s)|
  {
    if s != "" {
      BytesAreUtf8(s[1..]);
    }
  }

  /** Only the text changes: to its first `keep` runes without white space around them, and a notice. */
  ghost predicate CutTo(m: Message, r: Message, keep: nat, notice: string) {
    && r == m.(content := r.content)
    && if |m.content| <= keep then r.content == m.content
       else exists t :: Trims(m.content[..keep], t) && r.content == t + notice
  }

  lemma CompactIs(m: Message, keep: nat, notice: string)
    ensures CutTo(m, m.(content := CompactText(m.content, keep, notice)), keep, notice)
  {
    if keep < |m.content| {
      TrimSpaceTrims(m.content[..keep]);
      hide TrimSpace, Trims;
    }
  }

  /**
   * Pruning cuts old messages alone: tool results of more than 1200 bytes, plain assistant texts of more than 1800 and
   * texts in front of tool calls of more than 800.
   */
  lemma PrunedIs(ms: seq<Message>, recent: int, i: nat)
    requires i < |ms|
    ensures
      var m, r, bytes := ms[i], Pruned(ms, recent)[i], |Glob.Utf8(ms[i].content)|;
      var isOld := 1 <= i < |ms| - (if recent <= 0 then 6 else recent);
      if isOld && m.role.Tool? && 1200 < bytes then
        CutTo(m, r, 450, "\n[tool output truncated for context budget]")
      else if isOld && m.role.Assistant? && m.calls == [] && 1800 < bytes then
        CutTo(m, r, 800, "\n[assistant content truncated for context budget]")
      else if isOld && m.role.Assistant? && m.calls != [] && 800 < bytes then
        CutTo(m, r, 300, "\n[assistant tool preface truncated]")
      else r == m
  {
    var m := ms[i];
    BytesAreUtf8(m.content);
    CompactIs(m, 450, TOOL_SUFFIX);
    CompactIs(m, 800, ASSISTANT_SUFFIX);
    CompactIs(m, 300, PREFACE_SUFFIX);
    hide CompactText, CutTo, ByteLength, Glob.Utf8;
  }

  predicate AllSpace(s: string) {
    forall i :: 0 <= i < |s| ==> IsSpace(s[i])
  }

  /** A message that says nothing and calls nothing. */
  predicate SaysNothing(m: Message) {
    m.role.Assistant? && |m.calls| == 0 && |m.media| == 0 && AllSpace(m.content) && AllSpace(m.reasoning)
  }

  /** Exactly the assistant messages that say nothing are dropped before a list is sent. */
  lemma {:induction false} BlankAreDropped(ms: seq<Message>) returns (at: seq<nat>)
    ensures Embeds(WithoutBlankReplies(ms), ms, at)
    ensures forall i :: 0 <= i < |ms| ==> (i in at <==> !SaysNothing(ms[i]))
  {
    at := [];
    if ms != [] {
      var n := |ms| - 1;
      at := BlankAreDropped(ms[..n]);
      EmbedsSnoc(WithoutBlankReplies(ms[..n]), ms[..n], at, ms[n]);
      SplitLast(ms);
      BlankIff(ms[n]);
      hide SaysNothing, IsBlankReply, Embeds;
      if !IsBlankReply(ms[n]) {
        at := at + [n];
      }
    }
  }

  lemma BlankIff(m: Message)
    ensures IsBlankReply(m) <==> SaysNothing(m)
  {
    TrimsToNothingIff(m.content);
    TrimsToNothingIff(m.reasoning);
    hide TrimSpace, IsSpace;
  }

  /** The message that is sent in place of none: what the caller asks for, or a fixed one. */
  lemma FallbackIs(fallback: string)
    ensures if AllSpace(fallback) then FallbackText(fallback) == "Continue with the previous request."
      else Trims(fallback, FallbackText(fallback))
  {
    TrimsToNothingIff(fallback);
    TrimSpaceTrims(fallback);
    hide TrimSpace, IsSpace, Trims;
  }
}
