/** The two passes that make a stored history fit for a provider. */
module Sanitizer {
  import opened Text
  import opened Messages

  /** The nearest message that is not a tool message is a call turn. */
  predicate OpenTurn(s: seq<Message>) {
    s != [] && (if s[|s| - 1].role.Tool? then OpenTurn(s[..|s| - 1]) else CallTurn(s[|s| - 1]))
  }

  /** First pass: whether m is taken over behind the messages kept so far. */
  predicate Admits(kept: seq<Message>, m: Message) {
    match m.role
    case System => false
    case Tool => OpenTurn(kept)
    case Assistant => m.calls != [] ==> kept != [] && MayPrecedeCalls(kept[|kept| - 1])
    case _ => true
  }

  function FirstPass(h: seq<Message>): seq<Message> {
    if h == [] then []
    else
      var kept := FirstPass(h[..|h| - 1]);
      var m := h[|h| - 1];
      if Admits(kept, m) then kept + [m] else kept
  }

  /** The first result of every call id, in order. */
  function FirstResults(calls: seq<string>, tools: seq<Message>): seq<Message> {
    if tools == [] then []
    else
      var kept := FirstResults(calls, tools[..|tools| - 1]);
      var m := tools[|tools| - 1];
      if AnswerId(m) in calls && AnswerId(m) !in AnswerIds(kept) then kept + [m] else kept
  }

  predicate Complete(calls: seq<string>, results: seq<Message>) {
    forall c :: c in calls ==> c in AnswerIds(results)
  }

  /** Length of the first block of s: a call turn with the tool messages behind it, or a single message. */
  function Width(s: seq<Message>): (w: nat)
    requires s != []
    ensures 0 < w <= |s|
  {
    if CallTurn(s[0]) then 1 + ToolRun(s[1..]) else 1
  }

  /** What the second pass keeps of the first block. */
  function KeptBlock(s: seq<Message>): seq<Message>
    requires s != []
  {
    if CallTurn(s[0]) then
      var results := FirstResults(s[0].calls, s[1..Width(s)]);
      if Complete(s[0].calls, results) then [s[0]] + results else []
    else if s[0].role.Tool? then [] else [s[0]]
  }

  function SecondPass(s: seq<Message>): seq<Message> {
    if s == [] then [] else KeptBlock(s) + SecondPass(s[Width(s)..])
  }

  function Sanitize(h: seq<Message>): seq<Message> {
    SecondPass(FirstPass(h))
  }

  method FindsOpenTurn(sanitized: seq<Message>) returns (foundAssistant: bool)
    ensures foundAssistant == OpenTurn(sanitized)
  {
    foundAssistant := false;
    var i := |sanitized| - 1;
    assert sanitized[..i + 1] == sanitized;
    while 0 <= i
      invariant -1 <= i < |sanitized|
      invariant !foundAssistant
      invariant OpenTurn(sanitized) == OpenTurn(sanitized[..i + 1])
    {
      assert sanitized[..i + 1][..i] == sanitized[..i];
      if sanitized[i].role.Tool? {
        i := i - 1;
        continue;
      }
      if sanitized[i].role.Assistant? && 0 < |sanitized[i].calls| {
        foundAssistant := true;
      }
      break;
    }
  }

  /** The results kept for one call turn, and how many tool messages follow it. */
  method CollectResults(sanitized: seq<Message>, i: nat)
    returns (toolMsgCount: nat, filteredTools: seq<Message>, allFound: bool)
    requires i < |sanitized|
    ensures toolMsgCount == ToolRun(sanitized[i + 1..])
    ensures filteredTools == FirstResults(sanitized[i].calls, sanitized[i + 1..i + 1 + toolMsgCount])
    ensures allFound == Complete(sanitized[i].calls, filteredTools)
  {
    hide ToolRun, AnswerIds, FirstResults;
    ghost var after := sanitized[i + 1..];
    ghost var calls := sanitized[i].calls;
    var expected := set c | c in sanitized[i].calls;
    var matched: set<string> := {};
    toolMsgCount := 0;
    filteredTools := [];
    var j := i + 1;
    NoAnswers(calls);
    assert sanitized[i + 1..j] == [];
    while j < |sanitized|
      invariant toolMsgCount == j - i - 1 <= ToolRun(after)
      invariant filteredTools == FirstResults(calls, sanitized[i + 1..j])
      invariant matched == AnswerIds(filteredTools)
    {
      ToolRunReaches(sanitized, i, j);
      if !sanitized[j].role.Tool? {
        break;
      }
      FirstResultsStep(calls, sanitized, i + 1, j);
      toolMsgCount := toolMsgCount + 1;
      var toolID := TrimSpace(sanitized[j].resultId);
      if toolID in expected && toolID !in matched {
        AnswerIdsSnoc(filteredTools, sanitized[j]);
        matched := matched + {toolID};
        filteredTools := filteredTools + [sanitized[j]];
      }
      j := j + 1;
    }
    allFound := expected <= matched;
  }

  lemma ToolRunReaches(s: seq<Message>, i: nat, j: nat)
    requires i < j < |s| && j - i - 1 <= ToolRun(s[i + 1..])
    ensures s[j].role.Tool? <==> j - i - 1 < ToolRun(s[i + 1..])
  {
    ToolRunIs(s[i + 1..]);
    assert s[i + 1..][j - i - 1] == s[j];
  }

  lemma NoAnswers(calls: seq<string>)
    ensures AnswerIds([]) == {} && FirstResults(calls, []) == []
  {
  }

  lemma FirstResultsStep(calls: seq<string>, s: seq<Message>, i: nat, j: nat)
    requires i <= j < |s|
    ensures var kept := FirstResults(calls, s[i..j]);
      FirstResults(calls, s[i..j + 1])
        == if AnswerId(s[j]) in calls && AnswerId(s[j]) !in AnswerIds(kept) then kept + [s[j]] else kept
  {
    hide AnswerId, AnswerIds;
    assert s[i..j + 1][..j - i] == s[i..j];
  }

  lemma AnswerIdsSnoc(ms: seq<Message>, m: Message)
    ensures AnswerIds(ms + [m]) == AnswerIds(ms) + {AnswerId(m)}
  {
  }

  method KeepBlock(sanitized: seq<Message>, i: nat) returns (kept: seq<Message>, next: nat)
    requires i < |sanitized|
    ensures kept == KeptBlock(sanitized[i..])
    ensures next == i + Width(sanitized[i..]) && next <= |sanitized|
  {
    hide FirstResults, ToolRun, Complete;
    ghost var s := sanitized[i..];
    var msg := sanitized[i];
    assert s[0] == msg && s[1..] == sanitized[i + 1..];
    kept, next := [], i;
    if msg.role.Assistant? && 0 < |msg.calls| {
      var toolMsgCount, filteredTools, allFound := CollectResults(sanitized, i);
      assert s[1..1 + toolMsgCount] == sanitized[i + 1..i + 1 + toolMsgCount];
      if allFound {
        kept := [msg] + filteredTools;
      }
      next := i + toolMsgCount;
    } else if !msg.role.Tool? {
      kept := [msg];
    }
    next := next + 1;
  }

  /** Drops what the first pass drops: system messages, and tool messages and call turns in the wrong place. */
  method DropMisplaced(history: seq<Message>) returns (sanitized: seq<Message>)
    ensures sanitized == FirstPass(history)
  {
    hide OpenTurn;
    sanitized := [];
    for k := 0 to |history|
      invariant sanitized == FirstPass(history[..k])
    {
      assert history[..k + 1][..k] == history[..k];
      var msg := history[k];
      match msg.role {
        case System =>
        case Tool =>
          var foundAssistant := FindsOpenTurn(sanitized);
          if foundAssistant {
            sanitized := sanitized + [msg];
          }
        case Assistant =>
          if 0 < |msg.calls| {
            if |sanitized| != 0 {
              var prev := sanitized[|sanitized| - 1];
              if prev.role.User? || prev.role.Tool? {
                sanitized := sanitized + [msg];
              }
            }
          } else {
            sanitized := sanitized + [msg];
          }
        case _ =>
          sanitized := sanitized + [msg];
      }
    }
    assert history[..|history|] == history;
  }

  method SanitizeHistoryForProvider(history: seq<Message>) returns (final: seq<Message>)
    ensures final == Sanitize(history)
  {
    if |history| == 0 {
      return history;
    }
    hide FirstPass, SecondPass;
    var sanitized := DropMisplaced(history);
    final := KeepAnswered(sanitized);
  }

  /** Keeps every call turn with exactly its results, or drops it with all of them. */
  method KeepAnswered(sanitized: seq<Message>) returns (final: seq<Message>)
    ensures final == SecondPass(sanitized)
  {
    hide SecondPass, Width, KeptBlock;
    final := [];
    var i := 0;
    assert sanitized[i..] == sanitized;
    while i < |sanitized|
      invariant 0 <= i <= |sanitized|
      invariant SecondPass(sanitized) == final + SecondPass(sanitized[i..])
    {
      var kept, next := KeepBlock(sanitized, i);
      SecondPassStep(sanitized, final, i);
      final := final + kept;
      i := next;
    }
    SecondPassEnd(sanitized, final);
  }

  lemma SecondPassStep(s: seq<Message>, final: seq<Message>, i: nat)
    requires i < |s|
    ensures var next := i + Width(s[i..]);
      final + SecondPass(s[i..]) == (final + KeptBlock(s[i..])) + SecondPass(s[next..])
  {
    hide Width, KeptBlock;
    assert s[i..][Width(s[i..])..] == s[i + Width(s[i..])..];
  }

  lemma SecondPassEnd(s: seq<Message>, final: seq<Message>)
    ensures final + SecondPass(s[|s|..]) == final
  {
  }
}
